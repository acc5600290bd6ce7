/** What whole runs of the lifecycle keep: idempotency keys, aggregation before completion, one
    outcome per processing, events that name the status, and two runs that show what is not kept. */
module RunHistory {
  import opened Wrappers
  import opened RunStore
  import opened RunLifecycle

  // ---------- idempotency keys ----------

  ghost predicate KeysUnique(runs: seq<Run>) {
    forall i, j | 0 <= i < j < |runs| :: runs[i].key.Some? ==> !SameKey(runs[j], runs[i].project, runs[i].key)
  }

  lemma StepKeepsKeys(s: State, step: Step)
    requires Enabled(s, step) && KeysUnique(s.db.runs)
    ensures KeysUnique(Next(s, step).db.runs)
  {
    StepKeepsRows(s, step);
    var t := Next(s, step);
    forall i, j | 0 <= i < j < |t.db.runs| && t.db.runs[i].key.Some?
      ensures !SameKey(t.db.runs[j], t.db.runs[i].project, t.db.runs[i].key)
    {
      assert SameRun(s.db.runs[i], t.db.runs[i]);
      if j < |s.db.runs| {
        assert SameRun(s.db.runs[j], t.db.runs[j]);
      } else {
        assert t.db.runs[j].key.Some? ==> !SameKey(s.db.runs[i], t.db.runs[j].project, t.db.runs[j].key);
      }
    }
  }

  lemma {:induction false} KeysStayUnique(trace: seq<State>, steps: seq<Step>, k: nat)
    requires IsRun(trace, steps) && Initial(trace[0]) && k < |trace|
    ensures KeysUnique(trace[k].db.runs)
  {
    if k > 0 {
      KeysStayUnique(trace, steps, k - 1);
      StepKeepsKeys(trace[k - 1], steps[k - 1]);
    }
  }

  lemma RowStays(s: State, step: Step, r: nat)
    requires Enabled(s, step) && r < |s.db.runs|
    ensures r < |Next(s, step).db.runs| && SameRun(s.db.runs[r], Next(s, step).db.runs[r])
  {
    StepKeepsRows(s, step);
  }

  lemma SameRunSelf(run: Run)
    ensures SameRun(run, run)
  {
  }

  lemma SameRunTwice(first: Run, second: Run, third: Run)
    requires SameRun(first, second) && SameRun(second, third)
    ensures SameRun(first, third)
  {
  }

  lemma {:induction false} RowsStay(trace: seq<State>, steps: seq<Step>, i: nat, k: nat, r: nat)
    requires IsRun(trace, steps) && i <= k < |trace| && r < |trace[i].db.runs|
    ensures r < |trace[k].db.runs| && SameRun(trace[i].db.runs[r], trace[k].db.runs[r])
  {
    hide *;
    RunLength(trace, steps);
    SameRunSelf(trace[i].db.runs[r]);
    if i < k {
      RunStep(trace, steps, k - 1);
      RowsStay(trace, steps, i, k - 1, r);
      RowStays(trace[k - 1], steps[k - 1], r);
      SameRunTwice(trace[i].db.runs[r], trace[k - 1].db.runs[r], trace[k].db.runs[r]);
    }
  }

  lemma FindKeyOf(trace: seq<State>, steps: seq<Step>, i: nat, k: nat, r: nat)
    requires IsRun(trace, steps) && Initial(trace[0]) && i <= k < |trace|
    requires r < |trace[i].db.runs| && trace[i].db.runs[r].key.Some?
    ensures FindKey(trace[k].db.runs, trace[i].db.runs[r].project, trace[i].db.runs[r].key) == r < |trace[k].db.runs|
  {
    RowsStay(trace, steps, i, k, r);
    KeysStayUnique(trace, steps, k);
    var runs, p, key := trace[k].db.runs, trace[i].db.runs[r].project, trace[i].db.runs[r].key;
    hide IsRun, Initial;
    var found := FindKey(runs, p, key);
    assert SameKey(runs[r], p, key);
    assert found <= r && SameKey(runs[found], p, key);
    assert SameKey(runs[r], runs[found].project, runs[found].key);
  }

  /** Submitting again with the key of run r, at any later time and with whatever else in the request,
      changes nothing and creates no run. It returns r if and only if the key is not empty: an empty
      key is stored but never looked up. */
  lemma ResubmissionReturnsOriginal(trace: seq<State>, steps: seq<Step>, i: nat, k: nat, r: nat, key: string,
                                    refsValid: bool, dispatched: bool, now: nat)
    requires IsRun(trace, steps) && Initial(trace[0]) && i <= k < |trace|
    requires r < |trace[i].db.runs| && trace[i].db.runs[r].key == Some(key)
    ensures var c := Create(trace[k].db, trace[k].quotas, trace[i].db.runs[r].project, Some(key), refsValid, dispatched, now);
            c.0 == trace[k].db && !c.1.Created? && (c.1 == Existing(r) <==> key != "")
  {
    FindKeyOf(trace, steps, i, k, r);
    hide IsRun, Initial, FindKey;
  }

  function Unnamed(): Db { Db([NewRun("p", Some(""), Queued, 1)], [Note(RunQueued, 0)]) }

  lemma EmptyKeyAdmitted()
    ensures Create(Db([], []), map["p" := 2], "p", Some(""), true, true, 1) == (Unnamed(), Created(0))
  {
    assert ActiveRuns([], "p") == {};
    assert [] + [NewRun("p", Some(""), Queued, 1)] == Unnamed().runs;
    assert [] + [Note(RunQueued, 0)] == Unnamed().log;
  }

  lemma EmptyKeyRefused()
    ensures Create(Unnamed(), map["p" := 2], "p", Some(""), true, true, 2) == (Unnamed(), DuplicateKey)
  {
    assert ActiveRuns(Unnamed().runs, "p") == {0};
    assert SameKey(Unnamed().runs[0], "p", Some(""));
  }

  /** With an empty key a second valid submission below the quota breaks the unique constraint. */
  lemma EmptyKeyIsADuplicate() returns (trace: seq<State>, steps: seq<Step>)
    ensures IsRun(trace, steps) && Initial(trace[0]) && |trace| == 2
    ensures |trace[1].db.runs| == 1 && trace[1].db.runs[0].key == Some("")
    ensures Create(trace[1].db, trace[1].quotas, "p", Some(""), true, true, 2) == (trace[1].db, DuplicateKey)
  {
    EmptyKeyAdmitted();
    EmptyKeyRefused();
    hide Create;
    var empty := State(Db([], []), [], map["p" := 2], []);
    trace, steps := [empty, empty.(db := Unnamed())], [Submit("p", Some(""), true, true, 1)];
  }

  // ---------- COMPLETED means aggregated ----------

  ghost predicate AggregatedFirst(s: State) {
    && (forall i | 0 <= i < |s.db.runs| :: s.db.runs[i].status == Completed ==> s.db.runs[i].aggregated)
    && (forall w | 0 <= w < |s.workers| :: s.workers[w].Busy? && s.workers[w].stage == Aggregated ==>
          s.workers[w].run < |s.db.runs| && s.db.runs[s.workers[w].run].aggregated)
  }

  lemma StepAggregatesFirst(s: State, step: Step)
    requires WellFormed(s) && Enabled(s, step) && AggregatedFirst(s)
    ensures AggregatedFirst(Next(s, step))
  {
    StepKeepsRows(s, step);
    var t := Next(s, step);
    forall w | 0 <= w < |t.workers| && t.workers[w].Busy? && t.workers[w].stage == Aggregated
      ensures t.workers[w].run < |t.db.runs| && t.db.runs[t.workers[w].run].aggregated
    {
      if s.workers[w] == t.workers[w] {
        assert SameRun(s.db.runs[s.workers[w].run], t.db.runs[s.workers[w].run]);
      }
    }
  }

  /** Whatever the interleaving, crashes included. */
  lemma {:induction false} CompletedIsAggregated(trace: seq<State>, steps: seq<Step>, k: nat)
    requires IsRun(trace, steps) && Initial(trace[0]) && k < |trace|
    ensures AggregatedFirst(trace[k])
    ensures forall r | 0 <= r < |trace[k].db.runs| && trace[k].db.runs[r].status == Completed :: trace[k].db.runs[r].aggregated
  {
    if k > 0 {
      CompletedIsAggregated(trace, steps, k - 1);
      RunWellFormed(trace, steps, k - 1);
      StepAggregatesFirst(trace[k - 1], steps[k - 1]);
    }
  }

  // ---------- one outcome per processing ----------

  function Occurrences<T(==)>(xs: seq<T>, x: T): nat {
    if xs == [] then 0 else Occurrences(xs[..|xs| - 1], x) + if xs[|xs| - 1] == x then 1 else 0
  }

  function Holders(workers: seq<Worker>, r: nat): nat {
    if workers == [] then 0
    else Holders(workers[..|workers| - 1], r) + if Holds(workers[|workers| - 1], r) then 1 else 0
  }

  lemma OccurrencesAppend<T>(xs: seq<T>, y: T, x: T)
    ensures Occurrences(xs + [y], x) == Occurrences(xs, x) + if y == x then 1 else 0
  {
  }

  lemma {:induction false} HoldersUpdate(workers: seq<Worker>, w: nat, v: Worker, r: nat)
    requires w < |workers|
    ensures Holders(workers[w := v], r)
            == Holders(workers, r) - (if Holds(workers[w], r) then 1 else 0) + (if Holds(v, r) then 1 else 0)
  {
    var front := workers[..|workers| - 1];
    var front' := workers[w := v][..|workers| - 1];
    if w < |front| {
      HoldersUpdate(front, w, v, r);
      assert front' == front[w := v];
    } else {
      assert front' == front;
    }
  }

  lemma {:induction false} HoldersIdle(workers: seq<Worker>, r: nat)
    requires forall w | 0 <= w < |workers| :: workers[w] == Idle
    ensures Holders(workers, r) == 0
  {
    if workers != [] { HoldersIdle(workers[..|workers| - 1], r); }
  }

  /** How often a processing of run r ended. */
  function Outcomes(s: State, r: nat): nat {
    Occurrences(s.db.log, Note(RunCompleted, r)) + Occurrences(s.db.log, Note(RunFailed, r))
  }

  /** The run whose processing a step ends, if it ends one. */
  predicate Finishes(s: State, step: Step, r: nat)
    requires Enabled(s, step)
  {
    && (step.Raise? || (step.Advance? && s.workers[step.w].stage == Aggregated))
    && s.workers[step.w].run == r
  }

  predicate IsOutcome(note: Note, r: nat) { note == Note(RunCompleted, r) || note == Note(RunFailed, r) }

  /** The event a step enqueues, if any. */
  function NewNotes(s: State, step: Step): (notes: seq<Note>)
    requires Enabled(s, step)
    ensures |notes| <= 1
  {
    match step
    case Submit(p, key, refsValid, dispatched, now) =>
      if Create(s.db, s.quotas, p, key, refsValid, dispatched, now).1.Created? then [Note(RunQueued, |s.db.runs|)] else []
    case CancelRun(p, r) => if Cancel(s.db, p, r).1 == CancelledNow then [Note(RunCancelled, r)] else []
    case Advance(w, _) =>
      if s.workers[w].stage == Loaded then [Note(RunStarted, s.workers[w].run)]
      else if s.workers[w].stage == Aggregated then [Note(RunCompleted, s.workers[w].run)]
      else []
    case Raise(w) => [Note(RunFailed, s.workers[w].run)]
    case _ => []
  }

  lemma StepLogs(s: State, step: Step)
    requires Enabled(s, step)
    ensures Next(s, step).db.log == s.db.log + NewNotes(s, step)
  {
  }

  lemma FinishingStep(s: State, step: Step, r: nat)
    requires Enabled(s, step)
    ensures Finishes(s, step, r) <==> NewNotes(s, step) != [] && IsOutcome(NewNotes(s, step)[0], r)
    ensures Finishes(s, step, r) ==>
              var t := Next(s, step);
              && t.workers == s.workers[step.w := Idle] && r < |t.db.runs|
              && t.db.runs[r].status == if NewNotes(s, step)[0].kind == RunCompleted then Completed else Failed
  {
  }

  lemma OutcomesAppend(log: seq<Note>, notes: seq<Note>, r: nat)
    requires |notes| <= 1
    ensures Occurrences(log + notes, Note(RunCompleted, r)) + Occurrences(log + notes, Note(RunFailed, r))
            == Occurrences(log, Note(RunCompleted, r)) + Occurrences(log, Note(RunFailed, r))
               + if notes != [] && IsOutcome(notes[0], r) then 1 else 0
  {
    if notes == [] {
      assert log + notes == log;
    } else {
      assert notes == [notes[0]];
      OccurrencesAppend(log, notes[0], Note(RunCompleted, r));
      OccurrencesAppend(log, notes[0], Note(RunFailed, r));
    }
  }

  /** A processing ends in one transaction that commits COMPLETED with its event or FAILED with its
      event, frees the worker, and is the only kind of transaction with such an event. */
  lemma FinishCommitsOneOutcome(s: State, step: Step, r: nat)
    requires Enabled(s, step)
    ensures var t := Next(s, step);
            if Finishes(s, step, r) then
              && t.workers == s.workers[step.w := Idle] && Outcomes(t, r) == Outcomes(s, r) + 1 && r < |t.db.runs|
              && ((t.db.log == s.db.log + [Note(RunCompleted, r)] && t.db.runs[r].status == Completed)
                  || (t.db.log == s.db.log + [Note(RunFailed, r)] && t.db.runs[r].status == Failed))
            else Outcomes(t, r) == Outcomes(s, r)
  {
    StepLogs(s, step);
    FinishingStep(s, step, r);
    OutcomesAppend(s.db.log, NewNotes(s, step), r);
    hide Next, Enabled, NewNotes, Occurrences;
  }

  ghost predicate Accounted(s: State, r: nat) {
    Occurrences(s.picks, r) == Outcomes(s, r) + Holders(s.workers, r)
  }

  predicate PicksUp(step: Step, r: nat) { step.Poll? && step.answer == Some(r) }

  lemma StepPicks(s: State, step: Step, r: nat)
    requires Enabled(s, step)
    ensures Occurrences(Next(s, step).picks, r) == Occurrences(s.picks, r) + if PicksUp(step, r) then 1 else 0
  {
    if step.Poll? && step.answer.Some? {
      OccurrencesAppend(s.picks, step.answer.value, r);
    }
  }

  lemma StepHolders(s: State, step: Step, r: nat)
    requires Enabled(s, step)
    ensures Holders(Next(s, step).workers, r)
            == Holders(s.workers, r) + (if PicksUp(step, r) then 1 else 0) - (if Finishes(s, step, r) then 1 else 0)
  {
    var t := Next(s, step);
    if t.workers != s.workers {
      assert t.workers == s.workers[step.w := t.workers[step.w]];
      HoldersUpdate(s.workers, step.w, t.workers[step.w], r);
    }
  }

  lemma StepAccounts(s: State, step: Step, r: nat)
    requires Enabled(s, step) && Accounted(s, r)
    ensures Accounted(Next(s, step), r)
  {
    FinishCommitsOneOutcome(s, step, r);
    StepPicks(s, step, r);
    StepHolders(s, step, r);
    hide Next, Enabled, Finishes, PicksUp, Outcomes, Occurrences, Holders;
  }

  /** Every time a run was picked up, its processing has ended in exactly one outcome or a worker
      process, possibly crashed, still holds it. */
  lemma {:induction false} PicksAreAccountedFor(trace: seq<State>, steps: seq<Step>, k: nat, r: nat)
    requires IsRun(trace, steps) && Initial(trace[0]) && k < |trace|
    ensures Accounted(trace[k], r)
  {
    if k == 0 {
      HoldersIdle(trace[0].workers, r);
    } else {
      PicksAreAccountedFor(trace, steps, k - 1, r);
      StepAccounts(trace[k - 1], steps[k - 1], r);
    }
  }

  // ---------- events and statuses ----------

  predicate Names(kind: Kind, status: Status) {
    match kind
    case RunQueued => status == Queued || status == PendingSubmission
    case RunStarted => status == Running
    case RunCompleted => status == Completed
    case RunFailed => status == Failed
    case RunCancelled => status == Cancelled
  }

  /** The kind of the last event about a run. */
  function LastKind(log: seq<Note>, r: nat): Option<Kind> {
    if log == [] then None
    else if log[|log| - 1].run == r then Some(log[|log| - 1].kind)
    else LastKind(log[..|log| - 1], r)
  }

  predicate Whole(run: Run) { run.examplesDone == 0 || run.examplesDone == run.examplesTotal }

  /** The last event about a run names its status, unless it is being aggregated; a run that is not
      in the table has no event. Progress is all or nothing. */
  ghost predicate Announced(s: State, r: nat) {
    if r < |s.db.runs| then
      var run, last := s.db.runs[r], LastKind(s.db.log, r);
      && last.Some? && (run.status == Aggregating || Names(last.value, run.status))
      && Whole(run)
    else LastKind(s.db.log, r) == None
  }

  lemma LastKindAppend(log: seq<Note>, notes: seq<Note>, r: nat)
    requires |notes| <= 1
    ensures LastKind(log + notes, r) == if notes != [] && notes[0].run == r then Some(notes[0].kind) else LastKind(log, r)
  {
    if notes == [] {
      assert log + notes == log;
    } else {
      assert (log + notes)[..|log|] == log;
    }
  }

  /** A status other than AGGREGATING is written together with the event that names it. */
  lemma StepWritesStatus(s: State, step: Step, r: nat)
    requires Enabled(s, step)
    ensures var t, notes := Next(s, step), NewNotes(s, step);
            if r < |s.db.runs| then
              r < |t.db.runs|
              && (if notes != [] && notes[0].run == r then Names(notes[0].kind, t.db.runs[r].status)
                  else t.db.runs[r].status == Aggregating || t.db.runs[r].status == s.db.runs[r].status)
              && (Whole(s.db.runs[r]) ==> Whole(t.db.runs[r]))
            else if r < |t.db.runs| then notes == [Note(RunQueued, r)] && Names(RunQueued, t.db.runs[r].status) && Whole(t.db.runs[r])
            else notes == [] || notes[0].run != r
  {
  }

  lemma StepAnnounces(s: State, step: Step, r: nat)
    requires Enabled(s, step) && Announced(s, r)
    ensures Announced(Next(s, step), r)
  {
    StepLogs(s, step);
    StepWritesStatus(s, step, r);
    LastKindAppend(s.db.log, NewNotes(s, step), r);
    hide Next, Enabled, NewNotes, LastKind, Whole;
  }

  /** Subscribers who read the events in order know the status of every run. */
  lemma {:induction false} LastEventNamesStatus(trace: seq<State>, steps: seq<Step>, k: nat, r: nat)
    requires IsRun(trace, steps) && Initial(trace[0]) && k < |trace|
    ensures Announced(trace[k], r)
  {
    if k > 0 {
      LastEventNamesStatus(trace, steps, k - 1, r);
      RunStep(trace, steps, k - 1);
      hide Next, Enabled, Announced;
      StepAnnounces(trace[k - 1], steps[k - 1], r);
    }
  }

  /** Cancelling a run that is not over always succeeds: it leaves the run CANCELLED, tells the
      subscribers and touches nothing else. */
  lemma CancelTakesEffect(s: State, r: nat)
    requires r < |s.db.runs| && s.db.runs[r].status !in {Completed, Failed, Cancelled}
    ensures var step := CancelRun(s.db.runs[r].project, r);
            && Enabled(s, step)
            && Next(s, step) == s.(db := Db(s.db.runs[r := s.db.runs[r].(status := Cancelled)], s.db.log + [Note(RunCancelled, r)]))
  {
  }

  // ---------- the local processing as worker steps ----------

  /** Undisturbed, the steps of a worker from a stage on are `process_run_locally` from that stage. */
  lemma {:induction false} WorkerRunsProcess(s: State, w: nat, n: nat, failAt: Option<Stage>)
    returns (trace: seq<State>, steps: seq<Step>)
    requires w < |s.workers| && s.workers[w].Busy? && s.workers[w].run < |s.db.runs|
    requires failAt.Some? ==> StageNumber(s.workers[w].stage) <= StageNumber(failAt.value)
    ensures IsRun(trace, steps) && trace[0] == s
    ensures forall k | 0 <= k < |steps| :: steps[k] in {Advance(w, n), Raise(w)}
    ensures trace[|steps|]
            == s.(db := Process(s.db, s.workers[w].run, s.workers[w].stage, n, failAt), workers := s.workers[w := Idle])
    decreases 5 - StageNumber(s.workers[w].stage)
  {
    var Busy(r, stage) := s.workers[w];
    var step := if failAt == Some(stage) then Raise(w) else Advance(w, n);
    var t := Next(s, step);
    if step.Raise? || stage == Aggregated {
      trace, steps := [s, t], [step];
    } else {
      var trace', steps' := WorkerRunsProcess(t, w, n, failAt);
      trace, steps := [s] + trace', [step] + steps';
      assert t.workers[w := Idle] == s.workers[w := Idle];
      forall k | 0 <= k < |steps|
        ensures Enabled(trace[k], steps[k]) && trace[k + 1] == Next(trace[k], steps[k])
      {
        if k > 0 { assert steps[k] == steps'[k - 1] && trace[k] == trace'[k - 1] && trace[k + 1] == trace'[k]; }
      }
    }
  }

  /** A transaction on one run leaves the other rows and the earlier events alone. */
  ghost predicate Touches(db: Db, run: nat, after: Db) {
    && |after.runs| == |db.runs| && (forall i | 0 <= i < |db.runs| && i != run :: after.runs[i] == db.runs[i])
    && |db.log| <= |after.log| && after.log[..|db.log|] == db.log
  }

  ghost predicate EndsWith(db: Db, run: nat, after: Db, status: Status, kind: Kind) {
    && Touches(db, run, after) && |db.log| < |after.log| && run < |after.runs|
    && after.runs[run].status == status && after.log[|after.log| - 1] == Note(kind, run)
  }

  lemma StageTouches(db: Db, run: nat, s: Stage, n: nat)
    requires run < |db.runs|
    ensures Touches(db, run, StageTx(db, run, s, n))
    ensures EndsWith(db, run, FailTx(db, run), Failed, RunFailed)
    ensures EndsWith(db, run, StageTx(db, run, Aggregated, n), Completed, RunCompleted)
  {
  }

  lemma TouchesThenEnds(db: Db, run: nat, mid: Db, after: Db, status: Status, kind: Kind)
    requires Touches(db, run, mid) && EndsWith(mid, run, after, status, kind)
    ensures EndsWith(db, run, after, status, kind)
  {
    assert after.log[..|db.log|] == after.log[..|mid.log|][..|db.log|];
  }

  /** The outcome of an undisturbed processing, whatever the row held before. */
  lemma {:induction false} ProcessFinal(db: Db, run: nat, s: Stage, n: nat, failAt: Option<Stage>)
    requires run < |db.runs| && (failAt.Some? ==> StageNumber(s) <= StageNumber(failAt.value))
    ensures EndsWith(db, run, Process(db, run, s, n, failAt), if failAt == None then Completed else Failed,
                     if failAt == None then RunCompleted else RunFailed)
    decreases 5 - StageNumber(s)
  {
    StageTouches(db, run, s, n);
    if failAt != Some(s) && s != Aggregated {
      var mid := StageTx(db, run, s, n);
      assert run < |mid.runs|;
      ProcessFinal(mid, run, NextStage(s), n, failAt);
      TouchesThenEnds(db, run, mid, Process(mid, run, NextStage(s), n, failAt), if failAt == None then Completed else Failed,
                      if failAt == None then RunCompleted else RunFailed);
    }
    hide EndsWith, StageTx, FailTx;
  }

  // ---------- which statuses are final ----------

  /** Only the poll that returns a run makes it held. */
  lemma PollsMakeHeld(s: State, step: Step, r: nat)
    requires Enabled(s, step) && r !in HeldRuns(s.workers) && !PicksUp(step, r)
    ensures r !in HeldRuns(Next(s, step).workers)
  {
    var t := Next(s, step);
    HeldRunsMembers(s.workers, r);
    HeldRunsMembers(t.workers, r);
    forall w | 0 <= w < |t.workers|
      ensures !Holds(t.workers[w], r)
    {
      assert !Holds(s.workers[w], r);
    }
  }

  /** A live worker is processing run r. */
  ghost predicate Processing(s: State, r: nat) {
    exists w :: 0 <= w < |s.workers| && s.workers[w].Busy? && Holds(s.workers[w], r)
  }

  lemma ProcessingIsHeld(s: State, r: nat)
    requires Processing(s, r)
    ensures r in HeldRuns(s.workers)
  {
    HeldRunsMembers(s.workers, r);
  }

  lemma ReleasedRowStays(s: State, step: Step, r: nat)
    requires Enabled(s, step) && r < |s.db.runs| && Terminal(s.db.runs[r].status) && !Processing(s, r)
    ensures var t := Next(s, step);
            && r < |t.db.runs| && t.db.runs[r] == s.db.runs[r] && !Processing(t, r)
            && (r !in HeldRuns(s.workers) ==> r !in HeldRuns(t.workers))
  {
    var t := Next(s, step);
    if step.Advance? || step.Raise? { assert !Holds(s.workers[step.w], r); }
    forall w | 0 <= w < |t.workers| && t.workers[w].Busy?
      ensures !Holds(t.workers[w], r)
    {
      assert s.workers[w].Busy? ==> !Holds(s.workers[w], r);
    }
    if r !in HeldRuns(s.workers) { PollsMakeHeld(s, step, r); }
  }

  /** A row that is over and that no live worker is processing never changes again. */
  lemma {:induction false} OverAndReleasedIsFinal(trace: seq<State>, steps: seq<Step>, i: nat, k: nat, r: nat)
    requires IsRun(trace, steps) && i <= k < |trace| && r < |trace[i].db.runs|
    requires Terminal(trace[i].db.runs[r].status) && !Processing(trace[i], r)
    ensures r < |trace[k].db.runs| && trace[k].db.runs[r] == trace[i].db.runs[r] && !Processing(trace[k], r)
    ensures r !in HeldRuns(trace[i].workers) ==> r !in HeldRuns(trace[k].workers)
  {
    if i < k {
      OverAndReleasedIsFinal(trace, steps, i, k - 1, r);
      ReleasedRowStays(trace[k - 1], steps[k - 1], r);
    }
  }

  /** The worker processing a run can always write another status over the one it has. */
  lemma ProcessingCanChange(s: State, r: nat) returns (trace: seq<State>, steps: seq<Step>)
    requires r < |s.db.runs| && Processing(s, r)
    ensures IsRun(trace, steps) && trace[0] == s
    ensures r < |trace[|steps|].db.runs| && trace[|steps|].db.runs[r].status != s.db.runs[r].status
  {
    var w :| 0 <= w < |s.workers| && s.workers[w].Busy? && Holds(s.workers[w], r);
    var stage := s.workers[w].stage;
    var failAt := if s.db.runs[r].status == Failed then None else Some(stage);
    ProcessFinal(s.db, r, stage, 0, failAt);
    trace, steps := WorkerRunsProcess(s, w, 0, failAt);
  }

  /** Along the run, the row of r keeps the status it starts with. */
  ghost predicate KeepsStatus(trace: seq<State>, r: nat)
    requires trace != [] && r < |trace[0].db.runs|
  {
    forall k | 0 <= k < |trace| :: r < |trace[k].db.runs| && trace[k].db.runs[r].status == trace[0].db.runs[r].status
  }

  ghost predicate IsOver(s: State, r: nat) { r < |s.db.runs| && Terminal(s.db.runs[r].status) }

  /** Whatever happens from s on, the run keeps its status. */
  ghost predicate IsFinal(s: State, r: nat)
    requires IsOver(s, r)
  {
    forall trace: seq<State>, steps: seq<Step> | IsRun(trace, steps) && trace[0] == s :: KeepsStatus(trace, r)
  }

  /** A status that is over is final if and only if no live worker is processing the run. */
  lemma FinalIff(s: State, r: nat)
    requires IsOver(s, r)
    ensures IsFinal(s, r) <==> !Processing(s, r)
  {
    if Processing(s, r) {
      var trace, steps := ProcessingCanChange(s, r);
      assert !KeepsStatus(trace, r);
    } else {
      forall trace: seq<State>, steps: seq<Step> | IsRun(trace, steps) && trace[0] == s
        ensures KeepsStatus(trace, r)
      {
        forall k | 0 <= k < |trace|
          ensures r < |trace[k].db.runs| && trace[k].db.runs[r].status == trace[0].db.runs[r].status
        {
          OverAndReleasedIsFinal(trace, steps, 0, k, r);
        }
      }
    }
  }

  // ---------- what is not kept ----------

  function RunOf(status: Status, at: nat, aggregated: bool): Run {
    Run("p", None, status, at, 0, 0, aggregated)
  }

  function Table(runs: seq<Run>, log: seq<Note>, workers: seq<Worker>, picks: seq<nat>): State {
    State(Db(runs, log), workers, map["p" := 1], picks)
  }

  const REVIVAL_STEPS: seq<Step> :=
    [Submit("p", None, true, true, 1), Poll(0, Some(0)), Advance(0, 0), CancelRun("p", 0), Submit("p", None, true, true, 2),
     Advance(0, 0)]

  const REVIVAL_LOG: seq<Note> := [Note(RunQueued, 0), Note(RunCancelled, 0), Note(RunQueued, 1), Note(RunStarted, 0)]

  const REVIVAL: seq<State> :=
    [Table([], [], [Idle], []),
     Table([RunOf(Queued, 1, false)], REVIVAL_LOG[..1], [Idle], []),
     Table([RunOf(Queued, 1, false)], REVIVAL_LOG[..1], [Busy(0, Picked)], [0]),
     Table([RunOf(Queued, 1, false)], REVIVAL_LOG[..1], [Busy(0, Loaded)], [0]),
     Table([RunOf(Cancelled, 1, false)], REVIVAL_LOG[..2], [Busy(0, Loaded)], [0]),
     Table([RunOf(Cancelled, 1, false), RunOf(Queued, 2, false)], REVIVAL_LOG[..3], [Busy(0, Loaded)], [0]),
     Table([RunOf(Running, 1, false), RunOf(Queued, 2, false)], REVIVAL_LOG, [Busy(0, Started)], [0])]

  lemma RevivalIsARun()
    ensures IsRun(REVIVAL, REVIVAL_STEPS)
  {
    assert ActiveRuns([], "p") == {};
    assert ActiveRuns([RunOf(Cancelled, 1, false)], "p") == {};
    forall k | 0 <= k < |REVIVAL_STEPS|
      ensures Enabled(REVIVAL[k], REVIVAL_STEPS[k]) && REVIVAL[k + 1] == Next(REVIVAL[k], REVIVAL_STEPS[k])
    {
      if
      case k == 0 =>
      case k == 1 =>
      case k == 2 =>
      case k == 3 =>
      case k == 4 =>
      case k == 5 =>
    }
  }

  lemma Join(front: seq<State>, frontSteps: seq<Step>, back: seq<State>, backSteps: seq<Step>)
    returns (trace: seq<State>, steps: seq<Step>)
    requires IsRun(front, frontSteps) && IsRun(back, backSteps) && front[|frontSteps|] == back[0]
    ensures IsRun(trace, steps) && |steps| == |frontSteps| + |backSteps|
    ensures trace[..|front|] == front && trace[|steps|] == back[|backSteps|]
  {
    trace, steps := front + back[1..], frontSteps + backSteps;
    forall k | 0 <= k < |steps|
      ensures Enabled(trace[k], steps[k]) && trace[k + 1] == Next(trace[k], steps[k])
    {
      if k < |frontSteps| {
        assert steps[k] == frontSteps[k];
      } else {
        assert steps[k] == backSteps[k - |frontSteps|];
        assert trace[k] == back[k - |frontSteps|];
      }
    }
  }

  /** One worker, one project with quota 1: run 0 is cancelled after the worker loaded its dataset,
      run 1 is admitted in its place, and the worker's next status write makes two active runs. Run 0
      then completes although it was cancelled. */
  lemma CancelledRunRevives() returns (trace: seq<State>, steps: seq<Step>)
    ensures IsRun(trace, steps) && |steps| > 6 && Initial(trace[0]) && |trace[0].workers| == 1
    ensures |trace[4].db.runs| == 1 && trace[4].db.runs[0].status == Cancelled
    ensures |ActiveIn(trace[6], "p")| == 2 && Cap(trace[0], "p") == 1
    ensures |trace[|steps|].db.runs| == 2 && trace[|steps|].db.runs[0].status == Completed
  {
    RevivalIsARun();
    var rest, restSteps := WorkerRunsProcess(REVIVAL[6], 0, 0, None);
    trace, steps := Join(REVIVAL, REVIVAL_STEPS, rest, restSteps);
    ProcessFinal(REVIVAL[6].db, 0, Started, 0, None);
    hide IsRun, Process;
    assert trace[0] == REVIVAL[0] && trace[4] == REVIVAL[4] && trace[6] == REVIVAL[6];
    assert ActiveIn(REVIVAL[6], "p") == {0, 1};
    assert |steps| != 6;
  }

  const BOTH_POLL_STEPS: seq<Step> := [Submit("p", None, true, true, 1), Poll(0, Some(0)), Poll(1, Some(0)), Raise(0)]

  const BOTH_POLL_LOG: seq<Note> := [Note(RunQueued, 0), Note(RunFailed, 0)]

  const BOTH_POLL: seq<State> :=
    [Table([], [], [Idle, Idle], []),
     Table([RunOf(Queued, 1, false)], BOTH_POLL_LOG[..1], [Idle, Idle], []),
     Table([RunOf(Queued, 1, false)], BOTH_POLL_LOG[..1], [Busy(0, Picked), Idle], [0]),
     Table([RunOf(Queued, 1, false)], BOTH_POLL_LOG[..1], [Busy(0, Picked), Busy(0, Picked)], [0, 0]),
     Table([RunOf(Failed, 1, false)], BOTH_POLL_LOG, [Idle, Busy(0, Picked)], [0, 0])]

  lemma BothPollIsARun()
    ensures IsRun(BOTH_POLL, BOTH_POLL_STEPS)
  {
    assert ActiveRuns([], "p") == {};
    forall k | 0 <= k < |BOTH_POLL_STEPS|
      ensures Enabled(BOTH_POLL[k], BOTH_POLL_STEPS[k]) && BOTH_POLL[k + 1] == Next(BOTH_POLL[k], BOTH_POLL_STEPS[k])
    {
      if
      case k == 0 =>
      case k == 1 =>
      case k == 2 =>
      case k == 3 =>
    }
  }

  /** Two workers poll the same queued run before either marks it RUNNING: it is processed twice,
      fails once and completes once. */
  lemma TwoWorkersTakeTheSameRun() returns (trace: seq<State>, steps: seq<Step>)
    ensures IsRun(trace, steps) && Initial(trace[0]) && |trace[0].workers| == 2
    ensures trace[|steps|].picks == [0, 0]
    ensures Note(RunFailed, 0) in trace[|steps|].db.log && Note(RunCompleted, 0) in trace[|steps|].db.log
  {
    BothPollIsARun();
    var back, backSteps := WorkerRunsProcess(BOTH_POLL[4], 1, 0, None);
    trace, steps := Join(BOTH_POLL, BOTH_POLL_STEPS, back, backSteps);
    ProcessFinal(BOTH_POLL[4].db, 0, Picked, 0, None);
    hide IsRun, Process;
    assert trace[0] == BOTH_POLL[0];
    var log := trace[|steps|].db.log;
    assert log[..2][1] == Note(RunFailed, 0);
  }
}
