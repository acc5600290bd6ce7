/** The queue over whole runs of the lifecycle: how often a run is picked up, and how long it waits. */
module RunQueue {
  import opened Wrappers
  import opened RunStore
  import opened RunLifecycle
  import opened RunHistory

  // ---------- how often a run is picked up ----------

  /** A held run was picked up, and a picked run is held or over. */
  ghost predicate PickedStaysHeld(s: State, r: nat) {
    && (r in HeldRuns(s.workers) ==> Occurrences(s.picks, r) >= 1)
    && (Occurrences(s.picks, r) >= 1 ==>
          r < |s.db.runs| && (r in HeldRuns(s.workers) || Terminal(s.db.runs[r].status)))
  }

  lemma PickedIsHeld(s: State, step: Step, r: nat)
    requires Enabled(s, step) && PicksUp(step, r)
    ensures r < |s.db.runs| && s.db.runs[r].status == Queued && r in HeldRuns(Next(s, step).workers)
  {
    var t := Next(s, step);
    HeldRunsMembers(t.workers, r);
    assert Holds(t.workers[step.w], r);
  }

  lemma StepKeepsPickedHeld(s: State, step: Step, r: nat)
    requires WellFormed(s) && Enabled(s, step) && PickedStaysHeld(s, r)
    ensures PickedStaysHeld(Next(s, step), r)
    ensures PicksUp(step, r) ==> (r in HeldRuns(s.workers) <==> Occurrences(s.picks, r) >= 1)
  {
    StepPicks(s, step, r);
    StepKeepsRows(s, step);
    if PicksUp(step, r) {
      PickedIsHeld(s, step, r);
    } else if r in HeldRuns(s.workers) {
      HeldUntilOver(s, step, r);
    } else {
      PollsMakeHeld(s, step, r);
      if Processing(s, r) { ProcessingIsHeld(s, r); }
      if Occurrences(s.picks, r) >= 1 { ReleasedRowStays(s, step, r); }
    }
    hide Next, Enabled, WellFormed, Occurrences, HeldRuns;
  }

  lemma {:induction false} PickedRunsAreHeld(trace: seq<State>, steps: seq<Step>, k: nat, r: nat)
    requires IsRun(trace, steps) && Initial(trace[0]) && k < |trace|
    ensures PickedStaysHeld(trace[k], r)
  {
    if k == 0 {
      NothingHeld(trace[0].workers);
    } else {
      PickedRunsAreHeld(trace, steps, k - 1, r);
      RunWellFormed(trace, steps, k - 1);
      RunStep(trace, steps, k - 1);
      hide PickedStaysHeld, Next, Enabled;
      StepKeepsPickedHeld(trace[k - 1], steps[k - 1], r);
    }
  }

  /** Step l picks run r up although some worker process holds it. */
  predicate PicksHeldAt(trace: seq<State>, steps: seq<Step>, l: nat, r: nat)
    requires l < |steps| && l < |trace|
  {
    PicksUp(steps[l], r) && r in HeldRuns(trace[l].workers)
  }

  lemma SecondPickIsHeld(trace: seq<State>, steps: seq<Step>, l: nat, r: nat)
    requires IsRun(trace, steps) && Initial(trace[0]) && l < |steps|
    ensures Occurrences(trace[l + 1].picks, r) == Occurrences(trace[l].picks, r) + if PicksUp(steps[l], r) then 1 else 0
    ensures PicksHeldAt(trace, steps, l, r) <==> PicksUp(steps[l], r) && Occurrences(trace[l].picks, r) >= 1
  {
    PickedRunsAreHeld(trace, steps, l, r);
    RunWellFormed(trace, steps, l);
    StepPicks(trace[l], steps[l], r);
    StepKeepsPickedHeld(trace[l], steps[l], r);
  }

  ghost predicate NeverPicksHeld(trace: seq<State>, steps: seq<Step>, k: nat, r: nat)
    requires k <= |steps| && k <= |trace|
  {
    forall l: nat | l < k :: !PicksHeldAt(trace, steps, l, r)
  }

  lemma OneMorePick(trace: seq<State>, steps: seq<Step>, k: nat, r: nat)
    requires 0 < k <= |steps| && k <= |trace|
    ensures NeverPicksHeld(trace, steps, k, r) <==>
            NeverPicksHeld(trace, steps, k - 1, r) && !PicksHeldAt(trace, steps, k - 1, r)
  {
    hide PicksHeldAt;
  }

  /** With any number of workers and crashes, a run is picked up at most once if and only if no poll
      returns it while some worker process already holds it. */
  lemma {:induction false} PickedOnceIff(trace: seq<State>, steps: seq<Step>, k: nat, r: nat)
    requires IsRun(trace, steps) && Initial(trace[0]) && k < |trace|
    ensures k <= |steps|
    ensures Occurrences(trace[k].picks, r) <= 1 <==> NeverPicksHeld(trace, steps, k, r)
  {
    RunLength(trace, steps);
    if k > 0 {
      PickedOnceIff(trace, steps, k - 1, r);
      hide *;
      SecondPickIsHeld(trace, steps, k - 1, r);
      OneMorePick(trace, steps, k, r);
      hide *;
    }
  }

  // ---------- how often several workers can pick a run up ----------

  /** A queued run has no outcome yet, nor has a run that is not in the table. */
  ghost predicate QueuedIsOpen(s: State, r: nat) {
    (r < |s.db.runs| ==> s.db.runs[r].status == Queued) ==> Outcomes(s, r) == 0
  }

  lemma StepQueues(s: State, step: Step, r: nat)
    requires Enabled(s, step) && r < |Next(s, step).db.runs| && Next(s, step).db.runs[r].status == Queued
    ensures r < |s.db.runs| ==> s.db.runs[r].status == Queued
    ensures !Finishes(s, step, r)
  {
  }

  lemma StepKeepsOpen(s: State, step: Step, r: nat)
    requires WellFormed(s) && Enabled(s, step) && QueuedIsOpen(s, r)
    ensures QueuedIsOpen(Next(s, step), r)
  {
    var t := Next(s, step);
    StepKeepsRows(s, step);
    FinishCommitsOneOutcome(s, step, r);
    if r < |t.db.runs| && t.db.runs[r].status == Queued { StepQueues(s, step, r); }
    hide Next, Enabled, WellFormed, Outcomes;
  }

  lemma {:induction false} IdleHoldsNothing(workers: seq<Worker>, w: nat, r: nat)
    requires w < |workers| && workers[w] == Idle
    ensures Holders(workers, r) < |workers|
  {
    var front := workers[..|workers| - 1];
    if w < |front| {
      IdleHoldsNothing(front, w, r);
    } else {
      HoldersAtMost(front, r);
    }
  }

  lemma {:induction false} HoldersAtMost(workers: seq<Worker>, r: nat)
    ensures Holders(workers, r) <= |workers|
  {
    if workers != [] { HoldersAtMost(workers[..|workers| - 1], r); }
  }

  /** A poll that returns r finds it open, so all its earlier pick-ups are still held. */
  lemma PickFindsOpen(s: State, step: Step, r: nat)
    requires Enabled(s, step) && PicksUp(step, r) && QueuedIsOpen(s, r) && Accounted(s, r)
    ensures Occurrences(s.picks, r) < |s.workers|
  {
    IdleHoldsNothing(s.workers, step.w, r);
    hide Occurrences, Outcomes, Holders;
  }

  lemma {:induction false} QueuedRunsAreOpen(trace: seq<State>, steps: seq<Step>, k: nat, r: nat)
    requires IsRun(trace, steps) && Initial(trace[0]) && k < |trace|
    ensures QueuedIsOpen(trace[k], r)
  {
    hide *;
    RunLength(trace, steps);
    if k == 0 {
      StartsOpen(trace[0], r);
    } else {
      QueuedRunsAreOpen(trace, steps, k - 1, r);
      RunStep(trace, steps, k - 1);
      RunWellFormed(trace, steps, k - 1);
      StepKeepsOpen(trace[k - 1], steps[k - 1], r);
    }
  }

  lemma StartsOpen(s: State, r: nat)
    requires Initial(s)
    ensures QueuedIsOpen(s, r)
  {
  }

  lemma NothingPicked(s: State, r: nat)
    requires Initial(s)
    ensures Occurrences(s.picks, r) == 0
  {
  }

  lemma {:induction false} PickedAtMostPerWorker(trace: seq<State>, steps: seq<Step>, k: nat, r: nat)
    requires IsRun(trace, steps) && Initial(trace[0]) && k < |trace|
    ensures Occurrences(trace[k].picks, r) <= |trace[0].workers|
  {
    hide *;
    RunLength(trace, steps);
    if k == 0 {
      NothingPicked(trace[0], r);
    } else {
      PickedAtMostPerWorker(trace, steps, k - 1, r);
      RunStep(trace, steps, k - 1);
      RunWellFormed(trace, steps, k - 1);
      StepPicks(trace[k - 1], steps[k - 1], r);
      if PicksUp(steps[k - 1], r) {
        QueuedRunsAreOpen(trace, steps, k - 1, r);
        PicksAreAccountedFor(trace, steps, k - 1, r);
        PickFindsOpen(trace[k - 1], steps[k - 1], r);
      }
    }
  }

  /** With W workers a run is processed at most W times and has at most W outcomes. */
  lemma OutcomesAtMostWorkers(trace: seq<State>, steps: seq<Step>, k: nat, r: nat)
    requires IsRun(trace, steps) && Initial(trace[0]) && k < |trace|
    ensures Occurrences(trace[k].picks, r) <= |trace[0].workers|
    ensures Occurrences(trace[k].db.log, Note(RunCompleted, r)) + Occurrences(trace[k].db.log, Note(RunFailed, r))
            <= |trace[0].workers|
  {
    PickedAtMostPerWorker(trace, steps, k, r);
    PicksAreAccountedFor(trace, steps, k, r);
    hide IsRun, Initial, Occurrences, Holders;
  }

  /** A single worker polls only when it holds nothing. */
  lemma SingleWorkerPicksUnheld(trace: seq<State>, steps: seq<Step>, l: nat, r: nat)
    requires IsRun(trace, steps) && Initial(trace[0]) && |trace[0].workers| == 1 && l < |steps|
    ensures !PicksHeldAt(trace, steps, l, r)
  {
    RunWellFormed(trace, steps, l);
    if steps[l].Poll? { NothingHeld(trace[l].workers); }
  }

  /** With one worker a run is processed at most once and never both completes and fails. */
  lemma OneWorkerOneOutcome(trace: seq<State>, steps: seq<Step>, k: nat, r: nat)
    requires IsRun(trace, steps) && Initial(trace[0]) && |trace[0].workers| == 1 && k < |trace|
    ensures Occurrences(trace[k].picks, r) <= 1
    ensures Occurrences(trace[k].db.log, Note(RunCompleted, r)) + Occurrences(trace[k].db.log, Note(RunFailed, r)) <= 1
  {
    RunLength(trace, steps);
    forall l: nat | l < k
      ensures !PicksHeldAt(trace, steps, l, r)
    {
      SingleWorkerPicksUnheld(trace, steps, l, r);
    }
    PickedOnceIff(trace, steps, k, r);
    PicksAreAccountedFor(trace, steps, k, r);
  }

  /** The older queued runs that no worker holds. */
  function Ahead(s: State, r: nat): set<nat>
    requires r < |s.db.runs|
  {
    set j: nat | j < |s.db.runs| && s.db.runs[j].status == Queued && s.db.runs[j].submittedAt < s.db.runs[r].submittedAt
                 && j !in HeldRuns(s.workers)
  }

  ghost predicate Waits(s: State, r: nat) {
    r < |s.db.runs| && s.db.runs[r].status == Queued && r !in HeldRuns(s.workers)
  }

  /** The step takes run r out of the queue: a poll returns it or its project cancels it. */
  predicate Leaves(s: State, step: Step, r: nat)
    requires r < |s.db.runs|
  {
    PicksUp(step, r) || step == CancelRun(s.db.runs[r].project, r)
  }

  /** The step is a poll that returns a run no worker holds. */
  predicate TakesUnheld(s: State, step: Step) {
    step.Poll? && step.answer.Some? && step.answer.value !in HeldRuns(s.workers)
  }

  /** A run leaves the waiting ones only by `Leaves`, and no waiting run appears but by submission. */
  lemma StepWaits(s: State, step: Step, j: nat)
    requires WellFormed(s) && Enabled(s, step) && j < |s.db.runs|
    ensures Waits(s, j) && !Leaves(s, step, j) ==> Waits(Next(s, step), j)
    ensures Waits(Next(s, step), j) ==> Waits(s, j)
  {
    if j in HeldRuns(s.workers) {
      HeldUntilOver(s, step, j);
    } else {
      HeldRunsMembers(s.workers, j);
      UnheldRowWaits(s, step, j);
      if !PicksUp(step, j) { PollsMakeHeld(s, step, j); }
    }
  }

  /** Only a cancellation takes an unheld run's row out of the queue, and nothing puts one back. */
  lemma UnheldRowWaits(s: State, step: Step, j: nat)
    requires Enabled(s, step) && j < |s.db.runs| && !exists w :: 0 <= w < |s.workers| && Holds(s.workers[w], j)
    ensures j < |Next(s, step).db.runs|
    ensures Next(s, step).db.runs[j].status == Queued ==> s.db.runs[j].status == Queued
    ensures s.db.runs[j].status == Queued && !Leaves(s, step, j) ==> Next(s, step).db.runs[j].status == Queued
  {
    if step.Advance? || step.Raise? { assert Holds(s.workers[step.w], s.workers[step.w].run); }
  }

  lemma AheadMembers(s: State, r: nat, j: nat)
    requires r < |s.db.runs|
    ensures j in Ahead(s, r) <==> Waits(s, j) && s.db.runs[j].submittedAt < s.db.runs[r].submittedAt
  {
  }

  lemma StepAheadShrinks(s: State, step: Step, r: nat)
    requires WellFormed(s) && Enabled(s, step) && r < |s.db.runs|
    ensures r < |Next(s, step).db.runs| && Ahead(Next(s, step), r) <= Ahead(s, r)
  {
    var t := Next(s, step);
    StepKeepsRows(s, step);
    assert SameRun(s.db.runs[r], t.db.runs[r]);
    hide Next, Ahead, Waits;
    forall j | j in Ahead(t, r)
      ensures j in Ahead(s, r)
    {
      AheadMembers(t, r, j);
      AheadMembers(s, r, j);
      assert j < |t.db.runs| by { hide *; Waiting(t, j); }
      if j < |s.db.runs| {
        assert SameRun(s.db.runs[j], t.db.runs[j]);
        StepWaits(s, step, j);
      }
    }
  }

  lemma Waiting(s: State, j: nat)
    requires Waits(s, j)
    ensures j < |s.db.runs|
  {
  }

  /** A poll that takes an unheld run other than the waiting run r takes it from ahead of r. */
  lemma PollTakesFromAhead(s: State, step: Step, r: nat)
    requires WellFormed(s) && Enabled(s, step) && Waits(s, r) && TakesUnheld(s, step) && !Leaves(s, step, r)
    ensures step.answer.value in Ahead(s, r)
    ensures r < |Next(s, step).db.runs| && step.answer.value !in Ahead(Next(s, step), r)
  {
    PickedIsHeld(s, step, step.answer.value);
  }

  lemma StepAhead(s: State, step: Step, r: nat)
    requires WellFormed(s) && Enabled(s, step) && Waits(s, r) && !Leaves(s, step, r)
    ensures Waits(Next(s, step), r)
    ensures |Ahead(Next(s, step), r)| + (if TakesUnheld(s, step) then 1 else 0) <= |Ahead(s, r)|
  {
    var t := Next(s, step);
    StepWaits(s, step, r);
    StepAheadShrinks(s, step, r);
    if TakesUnheld(s, step) {
      PollTakesFromAhead(s, step, r);
      hide *;
      SubsetSize(Ahead(t, r), Ahead(s, r) - {step.answer.value});
    } else {
      hide *;
      SubsetSize(Ahead(t, r), Ahead(s, r));
    }
  }

  /** How many of the steps from i up to k are polls that return a run no worker holds. */
  function Takes(trace: seq<State>, steps: seq<Step>, i: nat, k: nat): nat
    requires i <= k <= |steps| && k <= |trace|
  {
    if k == i then 0 else Takes(trace, steps, i, k - 1) + if TakesUnheld(trace[k - 1], steps[k - 1]) then 1 else 0
  }

  ghost predicate StaysQueued(trace: seq<State>, steps: seq<Step>, i: nat, k: nat, r: nat)
    requires k <= |steps| && k <= |trace|
  {
    forall l: nat | i <= l < k && r < |trace[l].db.runs| :: !Leaves(trace[l], steps[l], r)
  }

  lemma StillQueued(trace: seq<State>, steps: seq<Step>, i: nat, k: nat, r: nat)
    requires i < k <= |steps| && k <= |trace| && StaysQueued(trace, steps, i, k, r)
    ensures StaysQueued(trace, steps, i, k - 1, r)
    ensures r < |trace[k - 1].db.runs| ==> !Leaves(trace[k - 1], steps[k - 1], r)
  {
  }

  lemma {:induction false} WaitingIsBounded(trace: seq<State>, steps: seq<Step>, i: nat, k: nat, r: nat)
    requires IsRun(trace, steps) && Initial(trace[0]) && i <= k < |trace| && k <= |steps|
    requires Waits(trace[i], r) && StaysQueued(trace, steps, i, k, r)
    ensures Waits(trace[k], r)
    ensures r < |trace[i].db.runs| && r < |trace[k].db.runs|
    ensures Takes(trace, steps, i, k) + |Ahead(trace[k], r)| <= |Ahead(trace[i], r)|
  {
    hide *;
    Waiting(trace[i], r);
    if i < k {
      StillQueued(trace, steps, i, k, r);
      WaitingIsBounded(trace, steps, i, k - 1, r);
      RunStep(trace, steps, k - 1);
      RunWellFormed(trace, steps, k - 1);
      StepAhead(trace[k - 1], steps[k - 1], r);
      Waiting(trace[k], r);
      TakesStep(trace, steps, i, k);
    } else {
      NoTakes(trace, steps, i);
    }
  }

  lemma NoTakes(trace: seq<State>, steps: seq<Step>, i: nat)
    requires i <= |steps| && i <= |trace|
    ensures Takes(trace, steps, i, i) == 0
  {
  }

  lemma TakesStep(trace: seq<State>, steps: seq<Step>, i: nat, k: nat)
    requires i < k <= |steps| && k <= |trace|
    ensures Takes(trace, steps, i, k)
            == Takes(trace, steps, i, k - 1) + if TakesUnheld(trace[k - 1], steps[k - 1]) then 1 else 0
  {
  }

  /** First come, first served with any number of workers: once the polls have taken more unheld runs
      than were ahead of it, a waiting run was picked up or cancelled. */
  lemma TakenInTurn(trace: seq<State>, steps: seq<Step>, i: nat, k: nat, r: nat)
    requires IsRun(trace, steps) && Initial(trace[0]) && i <= k < |trace| && k <= |steps|
    requires Waits(trace[i], r) && Takes(trace, steps, i, k) > |Ahead(trace[i], r)|
    ensures exists l: nat :: i <= l < k && r < |trace[l].db.runs| && Leaves(trace[l], steps[l], r)
  {
    if StaysQueued(trace, steps, i, k, r) {
      WaitingIsBounded(trace, steps, i, k, r);
    }
  }

  function Polls(steps: seq<Step>): nat {
    if steps == [] then 0 else Polls(steps[..|steps| - 1]) + if steps[|steps| - 1].Poll? then 1 else 0
  }

  /** While a run waits, every poll of a single worker takes an unheld run. */
  lemma {:induction false} SingleWorkerTakes(trace: seq<State>, steps: seq<Step>, i: nat, k: nat, r: nat)
    requires IsRun(trace, steps) && Initial(trace[0]) && |trace[0].workers| == 1 && i <= k < |trace| && k <= |steps|
    requires Waits(trace[i], r) && StaysQueued(trace, steps, i, k, r)
    ensures Takes(trace, steps, i, k) == Polls(steps[i..k])
  {
    hide *;
    if i < k {
      StillQueued(trace, steps, i, k, r);
      SingleWorkerTakes(trace, steps, i, k - 1, r);
      WaitingIsBounded(trace, steps, i, k - 1, r);
      RunStep(trace, steps, k - 1);
      RunWellFormed(trace, steps, k - 1);
      SingleWorkerTake(trace[k - 1], steps[k - 1], r);
      TakesStep(trace, steps, i, k);
      PollsAppend(steps[i..k - 1], steps[k - 1]);
      assert steps[i..k] == steps[i..k - 1] + [steps[k - 1]];
    } else {
      NoTakes(trace, steps, i);
      NoPolls();
      assert steps[i..i] == [];
    }
  }

  lemma PollsAppend(steps: seq<Step>, step: Step)
    ensures Polls(steps + [step]) == Polls(steps) + if step.Poll? then 1 else 0
  {
    assert (steps + [step])[..|steps|] == steps;
  }

  lemma NoPolls()
    ensures Polls([]) == 0
  {
  }

  lemma SingleWorkerTake(s: State, step: Step, r: nat)
    requires Enabled(s, step) && |s.workers| == 1 && Waits(s, r)
    ensures TakesUnheld(s, step) <==> step.Poll?
  {
    if step.Poll? { NothingHeld(s.workers); }
  }

  /** With one worker: once there have been more polls than there were older queued runs, a waiting
      run was picked up or cancelled. */
  lemma PickedInTurn(trace: seq<State>, steps: seq<Step>, i: nat, k: nat, r: nat)
    requires IsRun(trace, steps) && Initial(trace[0]) && |trace[0].workers| == 1 && i <= k < |trace|
    requires Waits(trace[i], r) && Polls(steps[i..k]) > |Ahead(trace[i], r)|
    ensures exists l: nat :: i <= l < k && r < |trace[l].db.runs| && Leaves(trace[l], steps[l], r)
  {
    if StaysQueued(trace, steps, i, k, r) {
      SingleWorkerTakes(trace, steps, i, k, r);
      TakenInTurn(trace, steps, i, k, r);
    }
  }

  // ---------- counting every poll ----------

  predicate OlderQueued(s: State, r: nat, j: nat)
    requires r < |s.db.runs|
  {
    j < |s.db.runs| && s.db.runs[j].status == Queued && s.db.runs[j].submittedAt < s.db.runs[r].submittedAt
  }

  /** How many of the first n runs are queued and older than r. */
  function QueueBefore(s: State, r: nat, n: nat): nat
    requires r < |s.db.runs|
  {
    if n == 0 then 0 else QueueBefore(s, r, n - 1) + if OlderQueued(s, r, n - 1) then 1 else 0
  }

  /** How often run j can still be picked up ahead of r, by `cap` workers. */
  function RoomOf(s: State, r: nat, cap: nat, j: nat): int
    requires r < |s.db.runs|
  {
    if OlderQueued(s, r, j) then cap - Occurrences(s.picks, j) else 0
  }

  function Room(s: State, r: nat, cap: nat, n: nat): int
    requires r < |s.db.runs|
  {
    if n == 0 then 0 else Room(s, r, cap, n - 1) + RoomOf(s, r, cap, n - 1)
  }

  /** No run is picked up more than `cap` times. */
  ghost predicate PicksWithin(s: State, cap: nat) {
    forall j: nat :: Occurrences(s.picks, j) <= cap
  }

  lemma PollFindsOlder(s: State, step: Step, r: nat, j: nat)
    requires WellFormed(s) && Enabled(s, step) && Waits(s, r) && PicksUp(step, j) && j != r
    ensures OlderQueued(s, r, j) && r < |Next(s, step).db.runs| && OlderQueued(Next(s, step), r, j)
  {
  }

  lemma OlderStays(s: State, step: Step, r: nat, j: nat)
    requires WellFormed(s) && Enabled(s, step) && r < |s.db.runs|
    ensures r < |Next(s, step).db.runs|
    ensures OlderQueued(Next(s, step), r, j) ==> OlderQueued(s, r, j)
  {
    var t := Next(s, step);
    RowStays(s, step, r);
    if OlderQueued(t, r, j) {
      StepQueues(s, step, j);
      if j < |s.db.runs| { RowStays(s, step, j); } else { StepKeepsRows(s, step); }
    }
  }

  lemma StepRoomOf(s: State, step: Step, r: nat, cap: nat, j: nat)
    requires WellFormed(s) && Enabled(s, step) && Waits(s, r) && !Leaves(s, step, r) && PicksWithin(s, cap)
    ensures r < |s.db.runs| && r < |Next(s, step).db.runs|
    ensures RoomOf(Next(s, step), r, cap, j) + (if PicksUp(step, j) then 1 else 0) <= RoomOf(s, r, cap, j)
  {
    StepPicks(s, step, j);
    OlderStays(s, step, r, j);
    if PicksUp(step, j) { PollFindsOlder(s, step, r, j); }
    hide Next, Enabled, WellFormed, OlderQueued, Occurrences;
    assert Occurrences(s.picks, j) <= cap;
  }

  lemma {:induction false} StepRoom(s: State, step: Step, r: nat, cap: nat, n: nat)
    requires WellFormed(s) && Enabled(s, step) && Waits(s, r) && !Leaves(s, step, r) && PicksWithin(s, cap)
    ensures r < |s.db.runs| && r < |Next(s, step).db.runs|
    ensures Room(Next(s, step), r, cap, n) + (if step.Poll? && step.answer.Some? && step.answer.value < n then 1 else 0)
            <= Room(s, r, cap, n)
  {
    hide Next, Enabled, WellFormed, RoomOf, PicksWithin, Leaves;
    StepRoomOf(s, step, r, cap, 0);
    if n > 0 {
      StepRoom(s, step, r, cap, n - 1);
      StepRoomOf(s, step, r, cap, n - 1);
    }
  }

  /** The table may have grown by a run, which is not older than r. */
  lemma StepRoomTotal(s: State, step: Step, r: nat, cap: nat)
    requires WellFormed(s) && Enabled(s, step) && Waits(s, r) && !Leaves(s, step, r) && PicksWithin(s, cap)
    ensures r < |s.db.runs| && r < |Next(s, step).db.runs|
    ensures Room(Next(s, step), r, cap, |Next(s, step).db.runs|) + (if step.Poll? then 1 else 0)
            <= Room(s, r, cap, |s.db.runs|)
  {
    var t, n := Next(s, step), |s.db.runs|;
    Waiting(s, r);
    StepKeepsRows(s, step);
    StepRoom(s, step, r, cap, n);
    OlderStays(s, step, r, n);
    PollAnswers(s, step, r);
    hide Next, Enabled, WellFormed, Occurrences;
    if |t.db.runs| > n { assert Room(t, r, cap, n + 1) == Room(t, r, cap, n) + RoomOf(t, r, cap, n); }
  }

  lemma PollAnswers(s: State, step: Step, r: nat)
    requires Enabled(s, step) && Waits(s, r)
    ensures step.Poll? ==> step.answer.Some? && step.answer.value < |s.db.runs|
  {
  }

  lemma RunPicksWithin(trace: seq<State>, steps: seq<Step>, k: nat)
    requires IsRun(trace, steps) && Initial(trace[0]) && k < |trace|
    ensures PicksWithin(trace[k], |trace[0].workers|)
  {
    forall j: nat
      ensures Occurrences(trace[k].picks, j) <= |trace[0].workers|
    {
      PickedAtMostPerWorker(trace, steps, k, j);
    }
  }

  lemma {:induction false} PollsUseRoom(trace: seq<State>, steps: seq<Step>, i: nat, k: nat, r: nat)
    requires IsRun(trace, steps) && Initial(trace[0]) && i <= k < |trace| && k <= |steps|
    requires Waits(trace[i], r) && StaysQueued(trace, steps, i, k, r)
    ensures r < |trace[i].db.runs| && r < |trace[k].db.runs|
    ensures Polls(steps[i..k]) + Room(trace[k], r, |trace[0].workers|, |trace[k].db.runs|)
            <= Room(trace[i], r, |trace[0].workers|, |trace[i].db.runs|)
  {
    hide *;
    Waiting(trace[i], r);
    WaitingIsBounded(trace, steps, i, k, r);
    if i < k {
      StillQueued(trace, steps, i, k, r);
      PollsUseRoom(trace, steps, i, k - 1, r);
      WaitingIsBounded(trace, steps, i, k - 1, r);
      RunStep(trace, steps, k - 1);
      RunWellFormed(trace, steps, k - 1);
      RunPicksWithin(trace, steps, k - 1);
      StepRoomTotal(trace[k - 1], steps[k - 1], r, |trace[0].workers|);
      PollsAppend(steps[i..k - 1], steps[k - 1]);
      assert steps[i..k] == steps[i..k - 1] + [steps[k - 1]];
    } else {
      NoPolls();
      assert steps[i..i] == [];
    }
  }

  lemma {:induction false} RoomBounds(s: State, r: nat, cap: nat, n: nat)
    requires r < |s.db.runs| && PicksWithin(s, cap)
    ensures 0 <= Room(s, r, cap, n) <= cap * QueueBefore(s, r, n)
  {
    if n > 0 {
      RoomBounds(s, r, cap, n - 1);
      var j: nat := n - 1;
      assert Occurrences(s.picks, j) <= cap;
      hide OlderQueued, Occurrences, PicksWithin;
      CapStep(cap, QueueBefore(s, r, n - 1));
    }
  }

  lemma CapStep(cap: nat, n: nat)
    ensures cap * (n + 1) == cap * n + cap
  {
  }

  /** With W workers, polls that repeat a run another worker took included: once there have been more
      than W polls per older queued run, a waiting run was picked up or cancelled. */
  lemma PolledInTurn(trace: seq<State>, steps: seq<Step>, i: nat, k: nat, r: nat)
    requires IsRun(trace, steps) && Initial(trace[0]) && i <= k < |trace| && k <= |steps|
    requires Waits(trace[i], r) && r < |trace[i].db.runs|
    requires Polls(steps[i..k]) > |trace[0].workers| * QueueBefore(trace[i], r, |trace[i].db.runs|)
    ensures exists l: nat :: i <= l < k && r < |trace[l].db.runs| && Leaves(trace[l], steps[l], r)
  {
    if StaysQueued(trace, steps, i, k, r) {
      hide *;
      PollsUseRoom(trace, steps, i, k, r);
      RunPicksWithin(trace, steps, i);
      RunPicksWithin(trace, steps, k);
      RoomBounds(trace[i], r, |trace[0].workers|, |trace[i].db.runs|);
      RoomBounds(trace[k], r, |trace[0].workers|, |trace[k].db.runs|);
    }
  }
}
