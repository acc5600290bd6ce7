/** Submissions, cancellations and any number of local workers, interleaved freely, one transaction
    at a time. */
module RunLifecycle {
  import opened Wrappers
  import opened RunStore

  /** A worker process between polls, with a run and the stage it has finished, or crashed. */
  datatype Worker = Idle | Busy(run: nat, stage: Stage) | Dead(held: Option<nat>)

  /** `picks` lists the runs the polls returned, in order. */
  datatype State = State(db: Db, workers: seq<Worker>, quotas: map<string, int>, picks: seq<nat>)

  datatype Step =
    | Submit(project: string, key: Option<string>, refsValid: bool, dispatched: bool, now: nat)
    | CancelRun(project: string, run: nat)
    | Poll(w: nat, answer: Option<nat>)
    | Advance(w: nat, n: nat)
    | Raise(w: nat)
    | Crash(w: nat)

  function HeldBy(w: Worker): set<nat> {
    match w
    case Idle => {}
    case Busy(r, _) => {r}
    case Dead(None) => {}
    case Dead(Some(r)) => {r}
  }

  predicate Holds(w: Worker, run: nat) { run in HeldBy(w) }

  /** Submissions are serialised and their times strictly increase. */
  ghost predicate Enabled(s: State, step: Step) {
    match step
    case Submit(_, _, _, _, now) => forall i | 0 <= i < |s.db.runs| :: s.db.runs[i].submittedAt < now
    case CancelRun(_, _) => true
    case Poll(w, answer) => w < |s.workers| && s.workers[w] == Idle && IsOldestQueued(s.db.runs, answer)
    case Advance(w, _) => w < |s.workers| && s.workers[w].Busy? && s.workers[w].run < |s.db.runs|
    case Raise(w) => w < |s.workers| && s.workers[w].Busy? && s.workers[w].run < |s.db.runs|
    case Crash(w) => w < |s.workers| && !s.workers[w].Dead?
  }

  function Next(s: State, step: Step): State
    requires Enabled(s, step)
  {
    match step
    case Submit(p, key, refsValid, dispatched, now) => s.(db := Create(s.db, s.quotas, p, key, refsValid, dispatched, now).0)
    case CancelRun(p, r) => s.(db := Cancel(s.db, p, r).0)
    case Poll(w, None) => s
    case Poll(w, Some(r)) => s.(workers := s.workers[w := Busy(r, Picked)], picks := s.picks + [r])
    case Advance(w, n) =>
      var Busy(r, stage) := s.workers[w];
      State(StageTx(s.db, r, stage, n),
            s.workers[w := if stage == Aggregated then Idle else Busy(r, NextStage(stage))], s.quotas, s.picks)
    case Raise(w) => State(FailTx(s.db, s.workers[w].run), s.workers[w := Idle], s.quotas, s.picks)
    case Crash(w) =>
      s.(workers := s.workers[w := Dead(if s.workers[w].Busy? then Some(s.workers[w].run) else None)])
  }

  ghost predicate Initial(s: State) {
    s.db == Db([], []) && s.picks == [] && forall w | 0 <= w < |s.workers| :: s.workers[w] == Idle
  }

  ghost predicate IsRun(trace: seq<State>, steps: seq<Step>) {
    && |trace| == |steps| + 1
    && forall k | 0 <= k < |steps| :: Enabled(trace[k], steps[k]) && trace[k + 1] == Next(trace[k], steps[k])
  }

  lemma RunLength(trace: seq<State>, steps: seq<Step>)
    requires IsRun(trace, steps)
    ensures |trace| == |steps| + 1
  {
  }

  lemma RunStep(trace: seq<State>, steps: seq<Step>, k: nat)
    requires IsRun(trace, steps) && k < |steps|
    ensures k + 1 < |trace| && Enabled(trace[k], steps[k]) && trace[k + 1] == Next(trace[k], steps[k])
  {
  }

  // ---------- rows stay, workers hold existing runs ----------

  predicate InTable(w: Worker, n: nat) {
    match w
    case Idle => true
    case Busy(r, _) => r < n
    case Dead(held) => held.Some? ==> held.value < n
  }

  ghost predicate SubmittedInOrder(runs: seq<Run>) {
    forall i, j | 0 <= i < j < |runs| :: runs[i].submittedAt < runs[j].submittedAt
  }

  ghost predicate WellFormed(s: State) {
    && (forall w | 0 <= w < |s.workers| :: InTable(s.workers[w], |s.db.runs|))
    && (forall k | 0 <= k < |s.picks| :: s.picks[k] < |s.db.runs|)
    && SubmittedInOrder(s.db.runs)
  }

  /** What no transaction changes about a row; an aggregation stays committed. */
  ghost predicate SameRun(r: Run, r': Run) {
    r'.project == r.project && r'.key == r.key && r'.submittedAt == r.submittedAt && (r.aggregated ==> r'.aggregated)
  }

  lemma StepKeepsRows(s: State, step: Step)
    requires Enabled(s, step)
    ensures |s.db.runs| <= |Next(s, step).db.runs| <= |s.db.runs| + 1
    ensures |s.db.runs| < |Next(s, step).db.runs| ==> step.Submit? && Next(s, step).db.runs[|s.db.runs|].submittedAt == step.now
    ensures forall i | 0 <= i < |s.db.runs| :: SameRun(s.db.runs[i], Next(s, step).db.runs[i])
  {
  }

  lemma StepWellFormed(s: State, step: Step)
    requires WellFormed(s) && Enabled(s, step)
    ensures WellFormed(Next(s, step))
  {
    StepKeepsRows(s, step);
    var t := Next(s, step);
    forall i, j | 0 <= i < j < |t.db.runs|
      ensures t.db.runs[i].submittedAt < t.db.runs[j].submittedAt
    {
      assert SameRun(s.db.runs[i], t.db.runs[i]);
      if j < |s.db.runs| { assert SameRun(s.db.runs[j], t.db.runs[j]); }
    }
  }

  // ---------- the quota ----------

  /** The runs some worker process holds, crashed ones included. */
  function HeldRuns(workers: seq<Worker>): set<nat> {
    if workers == [] then {} else HeldRuns(workers[..|workers| - 1]) + HeldBy(workers[|workers| - 1])
  }

  lemma {:induction false} HeldRunsMembers(workers: seq<Worker>, r: nat)
    ensures r in HeldRuns(workers) <==> exists w :: 0 <= w < |workers| && Holds(workers[w], r)
  {
    if workers != [] { HeldRunsMembers(workers[..|workers| - 1], r); }
  }

  lemma {:induction false} HeldRunsSize(workers: seq<Worker>)
    ensures |HeldRuns(workers)| <= |workers|
  {
    if workers != [] {
      HeldRunsSize(workers[..|workers| - 1]);
      var front, last := HeldRuns(workers[..|workers| - 1]), HeldBy(workers[|workers| - 1]);
      assert |last| <= 1;
      assert |front + last| <= |front| + |last|;
    }
  }

  function ActiveIn(s: State, p: string): set<nat> { ActiveRuns(s.db.runs, p) }

  function Unheld(s: State, p: string): set<nat> { ActiveIn(s, p) - HeldRuns(s.workers) }

  /** The most runs the quota lets a project have active; none for an unknown project. */
  function Cap(s: State, p: string): nat {
    if p in s.quotas && s.quotas[p] > 0 then s.quotas[p] else 0
  }

  lemma SubsetSize(a: set<nat>, b: set<nat>)
    requires a <= b
    ensures |a| <= |b|
    ensures |a| == |b| ==> a == b
  {
    assert b == a + (b - a);
  }

  /** A worker lets go of a run only together with a status that is over. */
  lemma HeldUntilOver(s: State, step: Step, r: nat)
    requires WellFormed(s) && Enabled(s, step) && r in HeldRuns(s.workers)
    ensures r < |Next(s, step).db.runs|
    ensures r in HeldRuns(Next(s, step).workers) || Terminal(Next(s, step).db.runs[r].status)
  {
    var t := Next(s, step);
    HeldRunsMembers(s.workers, r);
    HeldRunsMembers(t.workers, r);
    var w :| 0 <= w < |s.workers| && Holds(s.workers[w], r);
    assert InTable(s.workers[w], |s.db.runs|);
    if !Holds(t.workers[w], r) {
      assert step.Advance? || step.Raise?;
    }
  }

  /** A step other than a submission adds no unheld active run. */
  lemma UnheldShrinks(s: State, step: Step, p: string)
    requires WellFormed(s) && Enabled(s, step) && !step.Submit?
    ensures Unheld(Next(s, step), p) <= Unheld(s, p)
  {
    var t := Next(s, step);
    forall r | r in Unheld(t, p)
      ensures r in Unheld(s, p)
    {
      if r in HeldRuns(s.workers) {
        HeldUntilOver(s, step, r);
      } else {
        HeldRunsMembers(s.workers, r);
        HeldRunsMembers(t.workers, r);
        UnheldRowMoves(s, step, r);
      }
    }
  }

  /** Only the worker that holds a run makes it active. */
  lemma UnheldRowMoves(s: State, step: Step, r: nat)
    requires Enabled(s, step) && !step.Submit? && r < |Next(s, step).db.runs|
    requires !exists w :: 0 <= w < |s.workers| && Holds(s.workers[w], r)
    ensures r < |s.db.runs|
    ensures Active(Next(s, step).db.runs[r].status) ==> Active(s.db.runs[r].status)
    ensures Next(s, step).db.runs[r].project == s.db.runs[r].project
  {
  }

  /** An accepted submission finds the project below its quota and adds one run. */
  lemma SubmitAddsOne(s: State, step: Step, p: string)
    requires WellFormed(s) && Enabled(s, step) && step.Submit?
    ensures var t := Next(s, step);
            && t.workers == s.workers
            && (t.db.runs == s.db.runs
                || (ActiveIn(t, p) <= ActiveIn(s, p) + {|s.db.runs|}
                    && (step.project != p ==> ActiveIn(t, p) == ActiveIn(s, p))
                    && (step.project == p ==> |ActiveIn(s, p)| < Cap(s, p))))
  {
    var t := Next(s, step);
    if t.db.runs != s.db.runs && step.project != p {
      assert ActiveIn(t, p) == ActiveIn(s, p);
    }
  }

  /** The active runs of a project that no worker holds never exceed its quota. */
  lemma StepKeepsUnheldQuota(s: State, step: Step, p: string)
    requires WellFormed(s) && Enabled(s, step) && |Unheld(s, p)| <= Cap(s, p)
    ensures |Unheld(Next(s, step), p)| <= Cap(Next(s, step), p)
  {
    var t := Next(s, step);
    if step.Submit? {
      SubmitAddsOne(s, step, p);
      if t.db.runs != s.db.runs {
        if step.project == p {
          SubsetSize(Unheld(s, p), ActiveIn(s, p));
          SubsetSize(Unheld(t, p), Unheld(s, p) + {|s.db.runs|});
        }
      }
    } else {
      UnheldShrinks(s, step, p);
      SubsetSize(Unheld(t, p), Unheld(s, p));
    }
  }

  lemma {:induction false} RunWellFormed(trace: seq<State>, steps: seq<Step>, k: nat)
    requires IsRun(trace, steps) && Initial(trace[0]) && k < |trace|
    ensures WellFormed(trace[k]) && trace[k].quotas == trace[0].quotas && |trace[k].workers| == |trace[0].workers|
  {
    if k > 0 {
      RunWellFormed(trace, steps, k - 1);
      StepWellFormed(trace[k - 1], steps[k - 1]);
    }
  }

  lemma {:induction false} NothingHeld(workers: seq<Worker>)
    requires forall w | 0 <= w < |workers| :: workers[w] == Idle
    ensures HeldRuns(workers) == {}
  {
    if workers != [] { NothingHeld(workers[..|workers| - 1]); }
  }

  /** In every reachable state, whatever the interleaving and the crashes: a project's active runs
      not held by a worker stay within its quota, and all of them within quota plus workers. */
  lemma {:induction false} QuotaPlusWorkers(trace: seq<State>, steps: seq<Step>, k: nat, p: string)
    requires IsRun(trace, steps) && Initial(trace[0]) && k < |trace|
    ensures |Unheld(trace[k], p)| <= Cap(trace[0], p)
    ensures |ActiveIn(trace[k], p)| <= Cap(trace[0], p) + |trace[0].workers|
  {
    RunWellFormed(trace, steps, k);
    if k == 0 {
      assert ActiveIn(trace[0], p) == {};
    } else {
      QuotaPlusWorkers(trace, steps, k - 1, p);
      RunWellFormed(trace, steps, k - 1);
      StepKeepsUnheldQuota(trace[k - 1], steps[k - 1], p);
    }
    var held := HeldRuns(trace[k].workers);
    HeldRunsSize(trace[k].workers);
    SubsetSize(ActiveIn(trace[k], p), Unheld(trace[k], p) + held);
    assert |Unheld(trace[k], p) + held| <= |Unheld(trace[k], p)| + |held|;
  }

  // ---------- when the quota itself is kept ----------

  /** A worker is about to write an active status over a run of the project that is no longer
      active, while the project is at its quota. */
  predicate RevivesAtQuota(s: State, step: Step, p: string)
    requires Enabled(s, step)
  {
    && step.Advance?
    && (s.workers[step.w].stage == Loaded || s.workers[step.w].stage == Measured)
    && s.db.runs[s.workers[step.w].run].project == p
    && !Active(s.db.runs[s.workers[step.w].run].status)
    && |ActiveIn(s, p)| >= Cap(s, p)
  }

  /** The active runs after a step that is neither a submission nor such a write. */
  lemma OtherStepsShrink(s: State, step: Step, p: string)
    requires Enabled(s, step) && !step.Submit?
    requires !(step.Advance? && (s.workers[step.w].stage == Loaded || s.workers[step.w].stage == Measured))
    ensures ActiveIn(Next(s, step), p) <= ActiveIn(s, p)
  {
  }

  /** A worker's active status write adds its run to the project's active ones. */
  lemma ActiveWriteAdds(s: State, step: Step, p: string)
    requires Enabled(s, step) && step.Advance? && (s.workers[step.w].stage == Loaded || s.workers[step.w].stage == Measured)
    ensures ActiveIn(Next(s, step), p)
            == ActiveIn(s, p) + if s.db.runs[s.workers[step.w].run].project == p then {s.workers[step.w].run} else {}
  {
  }

  lemma StepExceedsIff(s: State, step: Step, p: string)
    requires WellFormed(s) && Enabled(s, step) && |ActiveIn(s, p)| <= Cap(s, p)
    ensures |ActiveIn(Next(s, step), p)| <= Cap(s, p) <==> !RevivesAtQuota(s, step, p)
  {
    var t := Next(s, step);
    if step.Submit? {
      SubmitAddsOne(s, step, p);
      hide Next;
      if t.db.runs != s.db.runs && step.project == p {
        SubsetSize(ActiveIn(t, p), ActiveIn(s, p) + {|s.db.runs|});
      }
    } else if step.Advance? && (s.workers[step.w].stage == Loaded || s.workers[step.w].stage == Measured) {
      ActiveWriteAdds(s, step, p);
      hide Next;
      var r := s.workers[step.w].run;
      assert r in ActiveIn(s, p) ==> ActiveIn(s, p) + {r} == ActiveIn(s, p);
    } else {
      OtherStepsShrink(s, step, p);
      hide Next;
      SubsetSize(ActiveIn(t, p), ActiveIn(s, p));
    }
  }

  ghost predicate WithinQuota(trace: seq<State>, l: nat, p: string)
    requires l < |trace|
  {
    |ActiveIn(trace[l], p)| <= Cap(trace[0], p)
  }

  ghost predicate AlwaysWithinQuota(trace: seq<State>, k: nat, p: string)
    requires k < |trace|
  {
    forall l: nat | l <= k :: WithinQuota(trace, l, p)
  }

  ghost predicate RevivedAt(trace: seq<State>, steps: seq<Step>, l: nat, p: string)
    requires l < |trace| && l < |steps|
  {
    Enabled(trace[l], steps[l]) && RevivesAtQuota(trace[l], steps[l], p)
  }

  ghost predicate NeverRevived(trace: seq<State>, steps: seq<Step>, k: nat, p: string)
    requires k <= |trace| && k <= |steps|
  {
    forall l: nat | l < k :: !RevivedAt(trace, steps, l, p)
  }

  lemma FirstExcessIsARevival(trace: seq<State>, steps: seq<Step>, l: nat, p: string)
    requires IsRun(trace, steps) && Initial(trace[0]) && l < |steps| && WithinQuota(trace, l, p)
    ensures WithinQuota(trace, l + 1, p) <==> !RevivedAt(trace, steps, l, p)
  {
    RunWellFormed(trace, steps, l);
    StepExceedsIff(trace[l], steps[l], p);
  }

  lemma OneMoreState(trace: seq<State>, steps: seq<Step>, k: nat, p: string)
    requires 0 < k < |trace| && k <= |steps|
    ensures AlwaysWithinQuota(trace, k, p) <==> AlwaysWithinQuota(trace, k - 1, p) && WithinQuota(trace, k, p)
    ensures NeverRevived(trace, steps, k, p) <==> NeverRevived(trace, steps, k - 1, p) && !RevivedAt(trace, steps, k - 1, p)
  {
    hide WithinQuota, RevivedAt;
  }

  lemma StartsWithinQuota(trace: seq<State>, p: string)
    requires trace != [] && Initial(trace[0])
    ensures AlwaysWithinQuota(trace, 0, p)
  {
    assert ActiveIn(trace[0], p) == {};
  }

  lemma LastWithinQuota(trace: seq<State>, k: nat, p: string)
    requires k < |trace| && AlwaysWithinQuota(trace, k, p)
    ensures WithinQuota(trace, k, p)
  {
  }

  /** Over a whole run: a project never exceeds its quota if and only if no worker ever revives a run
      of it at the quota. */
  lemma {:induction false} QuotaKeptIff(trace: seq<State>, steps: seq<Step>, k: nat, p: string)
    requires IsRun(trace, steps) && Initial(trace[0]) && k < |trace|
    ensures k <= |steps|
    ensures AlwaysWithinQuota(trace, k, p) <==> NeverRevived(trace, steps, k, p)
  {
    RunLength(trace, steps);
    if k == 0 {
      StartsWithinQuota(trace, p);
    } else {
      hide *;
      QuotaKeptIff(trace, steps, k - 1, p);
      OneMoreState(trace, steps, k, p);
      if AlwaysWithinQuota(trace, k - 1, p) {
        LastWithinQuota(trace, k - 1, p);
        FirstExcessIsARevival(trace, steps, k - 1, p);
      }
    }
  }
}
