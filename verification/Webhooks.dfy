/** Webhook deliveries: enqueueing, batched attempts and capped exponential backoff
    (melp/common/webhooks.py). Times are real seconds. */
module Webhooks {
  import opened Arith

  datatype Status = Pending | Delivered | Failed

  /** A delivery row; its index in the table is its id. */
  datatype Delivery = Delivery(subscription: nat, event: string, status: Status, attempts: nat,
                               nextAttemptAt: real, createdAt: real)

  datatype Subscription = Subscription(project: string, active: bool, events: set<string>)

  /** What one POST came to: a 2xx answer, or another answer or an exception at some time. */
  datatype Outcome = Accepted | Refused(at: real)

  // ---------- one attempt ----------

  /** `min(2 ** attempts, 600)` seconds. */
  function Backoff(attempts: nat): nat { if Pow2(attempts) <= 600 then Pow2(attempts) else 600 }

  function Attempt(d: Delivery, o: Outcome, maxAttempts: int): Delivery {
    match o
    case Accepted => d.(status := Delivered)
    case Refused(at) =>
      var d' := d.(attempts := d.attempts + 1);
      if d'.attempts >= maxAttempts then d'.(status := Failed)
      else d'.(nextAttemptAt := at + Backoff(d'.attempts) as real)
  }

  // ---------- one batch ----------

  predicate Due(d: Delivery, now: real) { d.status == Pending && d.nextAttemptAt <= now }

  /** What the query may return: distinct due rows, all of them unless the limit cuts in. */
  ghost predicate IsBatch(rows: seq<Delivery>, now: real, maxBatch: nat, chosen: seq<nat>) {
    && |chosen| <= maxBatch
    && (forall k | 0 <= k < |chosen| :: chosen[k] < |rows| && Due(rows[chosen[k]], now))
    && (forall k, l | 0 <= k < l < |chosen| :: chosen[k] != chosen[l])
    && (|chosen| < maxBatch ==> forall i: nat | i < |rows| && Due(rows[i], now) :: i in chosen)
  }

  /** The clock does not run backwards between the query and the attempts, nor between attempts. */
  ghost predicate TimesAdvance(now: real, outcomes: seq<Outcome>) {
    && (forall k | 0 <= k < |outcomes| :: outcomes[k].Refused? ==> now <= outcomes[k].at)
    && (forall k, l | 0 <= k < l < |outcomes| ::
          outcomes[k].Refused? && outcomes[l].Refused? ==> outcomes[k].at <= outcomes[l].at)
  }

  /** The rows after the first k attempts of a batch. */
  function AfterAttempts(rows: seq<Delivery>, chosen: seq<nat>, outcomes: seq<Outcome>, maxAttempts: int, k: nat)
    : (r: seq<Delivery>)
    requires k <= |chosen| == |outcomes| && forall l | 0 <= l < |chosen| :: chosen[l] < |rows|
    ensures |r| == |rows|
  {
    if k == 0 then rows
    else
      var r := AfterAttempts(rows, chosen, outcomes, maxAttempts, k - 1);
      r[chosen[k - 1] := Attempt(r[chosen[k - 1]], outcomes[k - 1], maxAttempts)]
  }

  function NewRow(sub: nat, event: string, now: real): Delivery {
    Delivery(sub, event, Pending, 0, now, now)
  }

  predicate Wants(s: Subscription, project: string, event: string) {
    s.project == project && s.active && event in s.events
  }

  /** One row per subscription, among the first k, that is active and wants the event. */
  function Enqueued(subs: seq<Subscription>, project: string, event: string, now: real, k: nat): seq<Delivery>
    requires k <= |subs|
  {
    if k == 0 then []
    else
      Enqueued(subs, project, event, now, k - 1)
      + if Wants(subs[k - 1], project, event) then [NewRow(k - 1, event, now)] else []
  }

  // ---------- the program ----------

  class DeliveryTable {
    var rows: seq<Delivery>

    constructor ()
      ensures rows == []
    {
      rows := [];
    }

    /** `enqueue_event`. */
    method EnqueueEvent(subs: seq<Subscription>, project: string, event: string, now: real) returns (n: nat)
      modifies this
      ensures rows == old(rows) + Enqueued(subs, project, event, now, |subs|)
      ensures n == |rows| - |old(rows)|
    {
      n := 0;
      for k := 0 to |subs|
        invariant rows == old(rows) + Enqueued(subs, project, event, now, k)
        invariant n == |rows| - |old(rows)|
      {
        if subs[k].project != project || !subs[k].active || event !in subs[k].events {
          continue;
        }
        rows := rows + [NewRow(k, event, now)];
        n := n + 1;
      }
    }

    /** `deliver_pending`: `chosen` is the batch the query returned, `outcomes` what its POSTs came to. */
    method DeliverPending(now: real, maxBatch: nat, maxAttempts: int, chosen: seq<nat>, outcomes: seq<Outcome>)
      returns (attempted: nat)
      requires IsBatch(rows, now, maxBatch, chosen) && |outcomes| == |chosen|
      modifies this
      ensures rows == AfterAttempts(old(rows), chosen, outcomes, maxAttempts, |chosen|)
      ensures attempted == |chosen|
    {
      for k := 0 to |chosen|
        invariant rows == AfterAttempts(old(rows), chosen, outcomes, maxAttempts, k)
      {
        var d := rows[chosen[k]];
        match outcomes[k] {
          case Accepted =>
            d := d.(status := Delivered);
          case Refused(at) =>
            d := d.(attempts := d.attempts + 1);
            if d.attempts >= maxAttempts {
              d := d.(status := Failed);
            } else {
              d := d.(nextAttemptAt := at + Backoff(d.attempts) as real);
            }
        }
        rows := rows[chosen[k] := d];
      }
      attempted := |chosen|;
    }
  }

  // ---------- schedules ----------

  datatype Step =
    | Enqueue(added: seq<Delivery>)
    | Deliver(maxBatch: nat, chosen: seq<nat>, outcomes: seq<Outcome>)

  /** The table and a time no step so far lies after. */
  datatype State = State(rows: seq<Delivery>, clock: real)

  /** A step that starts at time `now` and is over at time `end`. */
  datatype Event = Event(now: real, end: real, step: Step)

  ghost predicate Allowed(s: State, e: Event) {
    && s.clock <= e.now <= e.end
    && match e.step
       case Enqueue(added) => forall k | 0 <= k < |added| :: added[k] == NewRow(added[k].subscription, added[k].event, e.now)
       case Deliver(maxBatch, chosen, outcomes) =>
         && IsBatch(s.rows, e.now, maxBatch, chosen) && |outcomes| == |chosen| && TimesAdvance(e.now, outcomes)
         && forall k | 0 <= k < |outcomes| && outcomes[k].Refused? :: outcomes[k].at <= e.end
  }

  function Next(s: State, e: Event, maxAttempts: int): State
    requires Allowed(s, e)
  {
    State(match e.step
          case Enqueue(added) => s.rows + added
          case Deliver(_, chosen, outcomes) => AfterAttempts(s.rows, chosen, outcomes, maxAttempts, |chosen|),
          e.end)
  }

  /** `trace` is a run of the table: consecutive states, each reached by an allowed event. */
  ghost predicate IsRun(trace: seq<State>, events: seq<Event>, maxAttempts: int) {
    && |trace| == |events| + 1
    && forall k | 0 <= k < |events| :: Allowed(trace[k], events[k]) && trace[k + 1] == Next(trace[k], events[k], maxAttempts)
  }

  lemma EnqueuedIsAllowed(subs: seq<Subscription>, project: string, event: string, now: real, k: nat)
    requires k <= |subs|
    ensures forall l | 0 <= l < |Enqueued(subs, project, event, now, k)| ::
              Enqueued(subs, project, event, now, k)[l]
              == NewRow(Enqueued(subs, project, event, now, k)[l].subscription, event, now)
  {
  }

  ghost predicate HasRowFor(rows: seq<Delivery>, subscription: nat) {
    exists l :: 0 <= l < |rows| && rows[l].subscription == subscription
  }

  lemma HasRowAppend(front: seq<Delivery>, back: seq<Delivery>, subscription: nat)
    ensures HasRowFor(front + back, subscription) <==> HasRowFor(front, subscription) || HasRowFor(back, subscription)
  {
    var rows := front + back;
    if HasRowFor(front, subscription) {
      var l :| 0 <= l < |front| && front[l].subscription == subscription;
      assert rows[l].subscription == subscription;
    }
    if HasRowFor(back, subscription) {
      var l :| 0 <= l < |back| && back[l].subscription == subscription;
      assert rows[|front| + l].subscription == subscription;
    }
  }

  /** Untried rows, due since `now`, in the order of their subscriptions, at most one for each. */
  ghost predicate FreshRows(rows: seq<Delivery>, event: string, now: real, k: nat) {
    && (forall l | 0 <= l < |rows| :: rows[l] == Delivery(rows[l].subscription, event, Pending, 0, now, now))
    && (forall l | 0 <= l < |rows| :: rows[l].subscription < k)
    && (forall l, m | 0 <= l < m < |rows| :: rows[l].subscription < rows[m].subscription)
  }

  lemma OneMoreRow(front: seq<Delivery>, event: string, now: real, k: nat)
    requires FreshRows(front, event, now, k)
    ensures FreshRows(front, event, now, k + 1)
    ensures FreshRows(front + [NewRow(k, event, now)], event, now, k + 1)
  {
  }

  lemma {:induction false} EnqueuedRows(subs: seq<Subscription>, project: string, event: string, now: real, k: nat)
    requires k <= |subs|
    ensures FreshRows(Enqueued(subs, project, event, now, k), event, now, k)
  {
    if k > 0 {
      var front := Enqueued(subs, project, event, now, k - 1);
      EnqueuedRows(subs, project, event, now, k - 1);
      OneMoreRow(front, event, now, k - 1);
      hide FreshRows, NewRow;
      assert front + [] == front;
    }
  }

  /** A subscription gets a row if and only if it is the project's, active, and lists the event. */
  lemma {:induction false} EnqueuedIff(subs: seq<Subscription>, project: string, event: string, now: real, k: nat, j: nat)
    requires k <= |subs| && j < |subs|
    ensures HasRowFor(Enqueued(subs, project, event, now, k), j) <==>
            j < k && subs[j].project == project && subs[j].active && event in subs[j].events
  {
    if k > 0 {
      EnqueuedIff(subs, project, event, now, k - 1, j);
      var back := if Wants(subs[k - 1], project, event) then [NewRow(k - 1, event, now)] else [];
      HasRowAppend(Enqueued(subs, project, event, now, k - 1), back, j);
      assert HasRowFor(back, j) <==> back != [] && j == k - 1 by {
        if back != [] { assert back[0].subscription == k - 1; }
      }
    }
  }

  // ---------- one attempt in numbers ----------

  /** The seconds after refused attempt a. */
  function WaitAfter(a: nat): nat
    requires a >= 1
  {
    if a <= 9 then [2, 4, 8, 16, 32, 64, 128, 256, 512][a - 1] else 600
  }

  lemma BackoffTable(a: nat)
    requires a >= 1
    ensures Backoff(a) == WaitAfter(a)
  {
    assert Pow2(1) == 2 && Pow2(2) == 4 && Pow2(3) == 8 && Pow2(4) == 16 && Pow2(5) == 32;
    assert Pow2(6) == 64 && Pow2(7) == 128 && Pow2(8) == 256 && Pow2(9) == 512 && Pow2(10) == 1024;
    if a > 9 { Pow2Grows(10, a); }
  }

  /** An accepted attempt delivers; a refused one is counted and either the last or due again after its
      wait. Nothing else changes. */
  lemma AttemptInFull(d: Delivery, o: Outcome, maxAttempts: int)
    ensures var a := d.attempts + 1;
            Attempt(d, o, maxAttempts) ==
            match o
            case Accepted => d.(status := Delivered)
            case Refused(at) =>
              if a >= maxAttempts then d.(attempts := a, status := Failed)
              else d.(attempts := a, nextAttemptAt := at + WaitAfter(a) as real)
  {
    BackoffTable(d.attempts + 1);
  }

  // ---------- what every step keeps ----------

  /** The number of refused attempts after which a row is given up. */
  function Cap(maxAttempts: int): nat { if maxAttempts >= 1 then maxAttempts else 1 }

  /** The least time k refused attempts take: the waits after them. */
  function TotalBackoff(k: nat): nat { if k == 0 then 0 else TotalBackoff(k - 1) + Backoff(k) }

  ghost predicate RowOk(d: Delivery, clock: real, maxAttempts: int) {
    && d.createdAt <= clock
    && match d.status
       case Pending => d.attempts < Cap(maxAttempts) && d.nextAttemptAt >= d.createdAt + TotalBackoff(d.attempts) as real
       case Delivered => d.attempts < Cap(maxAttempts)
       case Failed => d.attempts == Cap(maxAttempts) && clock >= d.createdAt + TotalBackoff(d.attempts - 1) as real
  }

  ghost predicate Inv(s: State, maxAttempts: int) {
    forall i: nat | i < |s.rows| :: RowOk(s.rows[i], s.clock, maxAttempts)
  }

  lemma AttemptKeepsRow(d: Delivery, o: Outcome, now: real, end: real, maxAttempts: int)
    requires RowOk(d, now, maxAttempts) && Due(d, now) && now <= end
    requires o.Refused? ==> now <= o.at <= end
    ensures RowOk(Attempt(d, o, maxAttempts), end, maxAttempts)
  {
  }

  /** A row is what it was, or the outcome of its one attempt, when its turn is over. */
  lemma {:induction false} AfterAttemptsRow(rows: seq<Delivery>, chosen: seq<nat>, outcomes: seq<Outcome>, maxAttempts: int, k: nat, i: nat)
    requires k <= |chosen| == |outcomes| && forall l | 0 <= l < |chosen| :: chosen[l] < |rows|
    requires forall l, m | 0 <= l < m < |chosen| :: chosen[l] != chosen[m]
    requires i < |rows|
    ensures i !in chosen[..k] ==> AfterAttempts(rows, chosen, outcomes, maxAttempts, k)[i] == rows[i]
    ensures forall l | 0 <= l < k && chosen[l] == i ::
              AfterAttempts(rows, chosen, outcomes, maxAttempts, k)[i] == Attempt(rows[i], outcomes[l], maxAttempts)
  {
    if k > 0 {
      AfterAttemptsRow(rows, chosen, outcomes, maxAttempts, k - 1, i);
      assert chosen[..k] == chosen[..k - 1] + [chosen[k - 1]];
    }
  }

  /** Every step keeps: pending below the cap, failed exactly at the cap, and the elapsed backoff. */
  lemma StepKeepsInv(s: State, e: Event, maxAttempts: int)
    requires Inv(s, maxAttempts) && Allowed(s, e)
    ensures Inv(Next(s, e, maxAttempts), maxAttempts)
  {
    var t := Next(s, e, maxAttempts);
    forall i: nat | i < |t.rows|
      ensures RowOk(t.rows[i], t.clock, maxAttempts)
    {
      match e.step
      case Enqueue(added) =>
        if i >= |s.rows| { assert t.rows[i] == added[i - |s.rows|]; }
      case Deliver(_, chosen, outcomes) =>
        assert chosen[..|chosen|] == chosen;
        AfterAttemptsRow(s.rows, chosen, outcomes, maxAttempts, |chosen|, i);
        if i in chosen {
          var l :| 0 <= l < |chosen| && chosen[l] == i;
          assert RowOk(s.rows[i], e.now, maxAttempts);
          AttemptKeepsRow(s.rows[i], outcomes[l], e.now, e.end, maxAttempts);
        }
    }
  }

  lemma {:induction false} RunKeepsInv(trace: seq<State>, events: seq<Event>, maxAttempts: int, k: nat)
    requires IsRun(trace, events, maxAttempts) && Inv(trace[0], maxAttempts) && k < |trace|
    ensures Inv(trace[k], maxAttempts)
  {
    if k > 0 {
      RunKeepsInv(trace, events, maxAttempts, k - 1);
      StepKeepsInv(trace[k - 1], events[k - 1], maxAttempts);
    }
  }

  /** How a row may change in one step: not at all, or by one attempt made when it was due. */
  lemma StepChangesRow(s: State, e: Event, maxAttempts: int, i: nat)
    requires Allowed(s, e) && i < |s.rows|
    ensures |Next(s, e, maxAttempts).rows| >= |s.rows|
    ensures var d, d' := s.rows[i], Next(s, e, maxAttempts).rows[i];
            d' == d || (Due(d, e.now) && (exists o: Outcome :: (o.Refused? ==> e.now <= o.at) && d' == Attempt(d, o, maxAttempts)))
  {
    if e.step.Deliver? {
      var chosen, outcomes := e.step.chosen, e.step.outcomes;
      assert chosen[..|chosen|] == chosen;
      AfterAttemptsRow(s.rows, chosen, outcomes, maxAttempts, |chosen|, i);
      if i in chosen {
        var l :| 0 <= l < |chosen| && chosen[l] == i;
        assert outcomes[l].Refused? ==> e.now <= outcomes[l].at;
      }
    }
  }

  /** Delivered and failed rows never change again. */
  lemma {:induction false} TerminalRowsAreFinal(trace: seq<State>, events: seq<Event>, maxAttempts: int, k: nat, l: nat, i: nat)
    requires IsRun(trace, events, maxAttempts) && k <= l < |trace|
    requires i < |trace[k].rows| && trace[k].rows[i].status != Pending
    ensures i < |trace[l].rows| && trace[l].rows[i] == trace[k].rows[i]
  {
    if k < l {
      TerminalRowsAreFinal(trace, events, maxAttempts, k, l - 1, i);
      StepChangesRow(trace[l - 1], events[l - 1], maxAttempts, i);
    }
  }

  /** A row attempted k times is attempted again only after its backoff: as long as the count stays,
      so does the time it waits for. */
  lemma {:induction false} WaitIsKept(trace: seq<State>, events: seq<Event>, maxAttempts: int, k: nat, l: nat, i: nat)
    requires IsRun(trace, events, maxAttempts) && k <= l < |trace| && i < |trace[k].rows|
    ensures i < |trace[l].rows| && trace[k].rows[i].attempts <= trace[l].rows[i].attempts
    ensures trace[l].rows[i].attempts == trace[k].rows[i].attempts ==>
              trace[l].rows[i].nextAttemptAt == trace[k].rows[i].nextAttemptAt
  {
    if k < l {
      WaitIsKept(trace, events, maxAttempts, k, l - 1, i);
      StepChangesRow(trace[l - 1], events[l - 1], maxAttempts, i);
    }
  }

  /** The gap after the refused attempt of step k: when step l attempts the row next, at least
      min(2^a, 600) seconds have passed since that refusal, a being its number. */
  lemma GapAfterRefusal(trace: seq<State>, events: seq<Event>, maxAttempts: int, k: nat, l: nat, i: nat, at: real)
    requires IsRun(trace, events, maxAttempts) && k < l < |events|
    requires i < |trace[k].rows| && Due(trace[k].rows[i], events[k].now)
    requires i < |trace[k + 1].rows| && trace[k + 1].rows[i] == Attempt(trace[k].rows[i], Refused(at), maxAttempts)
    requires i < |trace[l].rows| && trace[l].rows[i].attempts == trace[k + 1].rows[i].attempts
    requires events[l].step.Deliver? && i in events[l].step.chosen
    ensures events[l].now >= at + Backoff(trace[k + 1].rows[i].attempts) as real
  {
    WaitIsKept(trace, events, maxAttempts, k + 1, l, i);
    if trace[k + 1].rows[i].status != Pending {
      TerminalRowsAreFinal(trace, events, maxAttempts, k + 1, l, i);
    }
  }

  /** No attempt on row i from event k up to event l. */
  ghost predicate NotAttempted(events: seq<Event>, k: nat, l: nat, i: nat) {
    forall m | k <= m < l && m < |events| && events[m].step.Deliver? :: i !in events[m].step.chosen
  }

  lemma {:induction false} UnattemptedRowStays(trace: seq<State>, events: seq<Event>, maxAttempts: int, k: nat, l: nat, i: nat)
    requires IsRun(trace, events, maxAttempts) && k <= l < |trace| && i < |trace[k].rows| && NotAttempted(events, k, l, i)
    ensures i < |trace[l].rows| && trace[l].rows[i] == trace[k].rows[i]
  {
    if k < l {
      UnattemptedRowStays(trace, events, maxAttempts, k, l - 1, i);
      var e := events[l - 1];
      if e.step.Deliver? {
        assert e.step.chosen[..|e.step.chosen|] == e.step.chosen;
        AfterAttemptsRow(trace[l - 1].rows, e.step.chosen, e.step.outcomes, maxAttempts, |e.step.chosen|, i);
      }
    }
  }

  /** Exactly how long a refused row waits: until it is attempted again, a row whose refused attempt
      number a below the maximum was at time `at` is pending, and due from `WaitAfter(a)` seconds later. */
  lemma DueAfterRefusal(trace: seq<State>, events: seq<Event>, maxAttempts: int, k: nat, l: nat, i: nat, j: nat, at: real)
    requires IsRun(trace, events, maxAttempts) && k < l < |trace| && i < |trace[k].rows|
    requires events[k].step.Deliver? && j < |events[k].step.chosen| && |events[k].step.outcomes| == |events[k].step.chosen|
    requires events[k].step.chosen[j] == i && events[k].step.outcomes[j] == Refused(at)
    requires trace[k].rows[i].attempts + 1 < maxAttempts && NotAttempted(events, k + 1, l, i)
    ensures i < |trace[l].rows|
    ensures var a, row := trace[k].rows[i].attempts + 1, trace[l].rows[i];
            && row.status == Pending && row.attempts == a
            && forall now :: Due(row, now) <==> now >= at + WaitAfter(a) as real
  {
    var step := events[k].step;
    assert step.chosen[..|step.chosen|] == step.chosen;
    AfterAttemptsRow(trace[k].rows, step.chosen, step.outcomes, maxAttempts, |step.chosen|, i);
    AttemptInFull(trace[k].rows[i], Refused(at), maxAttempts);
    UnattemptedRowStays(trace, events, maxAttempts, k + 1, l, i);
  }

  lemma Pow2Grows(k: nat, n: nat)
    requires k <= n
    ensures Pow2(k) <= Pow2(n)
  {
  }

  /** Up to nine waits the cap of 600 seconds is not reached and the waits add up to 2^(k+1) - 2. */
  lemma {:induction false} TotalBackoffClosed(k: nat)
    requires k <= 9
    ensures TotalBackoff(k) == Pow2(k + 1) - 2
  {
    if k > 0 {
      TotalBackoffClosed(k - 1);
      Pow2Grows(k, 9);
      assert Pow2(9) == 512;
    }
  }

  /** In a run from the empty table: pending below the cap, failed exactly at it, and a failed row
      took at least the sum of its backoffs, which is 2^max - 2 seconds for up to ten attempts. */
  lemma FailureTakesBackoff(trace: seq<State>, events: seq<Event>, maxAttempts: int, k: nat, i: nat)
    requires IsRun(trace, events, maxAttempts) && trace[0].rows == [] && k < |trace| && i < |trace[k].rows|
    ensures var d := trace[k].rows[i];
            && (d.status == Pending ==> d.attempts < Cap(maxAttempts))
            && (d.status == Failed <==> d.attempts == Cap(maxAttempts))
            && (d.status == Failed ==> trace[k].clock - d.createdAt >= TotalBackoff(Cap(maxAttempts) - 1) as real)
            && (d.status == Failed && 1 <= maxAttempts <= 10 ==>
                  trace[k].clock - d.createdAt >= (Pow2(maxAttempts) - 2) as real)
  {
    hide Allowed, Next, TotalBackoff, Pow2, RowOk, IsRun;
    RunKeepsInv(trace, events, maxAttempts, k);
    RowMeaning(trace[k].rows[i], trace[k].clock, maxAttempts);
    if 1 <= maxAttempts <= 10 {
      TotalBackoffClosed(maxAttempts - 1);
    }
  }

  lemma RowMeaning(d: Delivery, clock: real, maxAttempts: int)
    requires RowOk(d, clock, maxAttempts)
    ensures d.status == Pending ==> d.attempts < Cap(maxAttempts)
    ensures d.status == Failed <==> d.attempts == Cap(maxAttempts)
    ensures d.status == Failed ==> clock - d.createdAt >= TotalBackoff(Cap(maxAttempts) - 1) as real
  {
  }

  // ---------- termination ----------

  /** The attempts a row may still see. */
  function Remaining(d: Delivery, maxAttempts: int): nat {
    if d.status == Pending && d.attempts < Cap(maxAttempts) then Cap(maxAttempts) - d.attempts else 0
  }

  function TotalRemaining(rows: seq<Delivery>, maxAttempts: int): nat {
    if rows == [] then 0
    else TotalRemaining(rows[..|rows| - 1], maxAttempts) + Remaining(rows[|rows| - 1], maxAttempts)
  }

  lemma {:induction false} RemainingUpdate(rows: seq<Delivery>, i: nat, d: Delivery, maxAttempts: int)
    requires i < |rows|
    ensures TotalRemaining(rows[i := d], maxAttempts)
            == TotalRemaining(rows, maxAttempts) - Remaining(rows[i], maxAttempts) + Remaining(d, maxAttempts)
  {
    var n := |rows| - 1;
    if i < n {
      RemainingUpdate(rows[..n], i, d, maxAttempts);
      assert rows[i := d][..n] == rows[..n][i := d];
    } else {
      assert rows[i := d][..n] == rows[..n];
    }
  }

  lemma {:induction false} RemainingAppend(xs: seq<Delivery>, ys: seq<Delivery>, maxAttempts: int)
    ensures TotalRemaining(xs + ys, maxAttempts) == TotalRemaining(xs, maxAttempts) + TotalRemaining(ys, maxAttempts)
  {
    if ys == [] {
      assert xs + ys == xs;
    } else {
      RemainingAppend(xs, ys[..|ys| - 1], maxAttempts);
      assert (xs + ys)[..|xs + ys| - 1] == xs + ys[..|ys| - 1];
    }
  }

  lemma AttemptUsesOne(d: Delivery, o: Outcome, maxAttempts: int)
    requires d.status == Pending && d.attempts < Cap(maxAttempts)
    ensures Remaining(Attempt(d, o, maxAttempts), maxAttempts) + 1 <= Remaining(d, maxAttempts)
  {
  }

  /** Every attempted row uses up at least one remaining attempt. */
  lemma {:induction false} BatchUsesRemaining(rows: seq<Delivery>, now: real, maxBatch: nat, chosen: seq<nat>, outcomes: seq<Outcome>, maxAttempts: int, k: nat)
    requires IsBatch(rows, now, maxBatch, chosen) && k <= |chosen| == |outcomes|
    requires forall i: nat | i < |rows| && rows[i].status == Pending :: rows[i].attempts < Cap(maxAttempts)
    ensures TotalRemaining(AfterAttempts(rows, chosen, outcomes, maxAttempts, k), maxAttempts) + k
            <= TotalRemaining(rows, maxAttempts)
  {
    hide TotalRemaining, Remaining, Attempt;
    if k > 0 {
      BatchUsesRemaining(rows, now, maxBatch, chosen, outcomes, maxAttempts, k - 1);
      var r, i := AfterAttempts(rows, chosen, outcomes, maxAttempts, k - 1), chosen[k - 1];
      AfterAttemptsRow(rows, chosen, outcomes, maxAttempts, k - 1, i);
      assert i !in chosen[..k - 1];
      AttemptUsesOne(r[i], outcomes[k - 1], maxAttempts);
      RemainingUpdate(r, i, Attempt(r[i], outcomes[k - 1], maxAttempts), maxAttempts);
    }
  }

  lemma {:induction false} NewRowsRemaining(rows: seq<Delivery>, maxAttempts: int)
    requires forall k | 0 <= k < |rows| :: rows[k].status == Pending && rows[k].attempts == 0
    ensures TotalRemaining(rows, maxAttempts) == |rows| * Cap(maxAttempts)
  {
    if rows != [] {
      NewRowsRemaining(rows[..|rows| - 1], maxAttempts);
    }
  }

  function AttemptsMade(events: seq<Event>): nat {
    if events == [] then 0
    else
      AttemptsMade(events[..|events| - 1])
      + match events[|events| - 1].step
        case Enqueue(_) => 0
        case Deliver(_, chosen, _) => |chosen|
  }

  /** Over any schedule from the empty table, the attempts made and those remaining never exceed
      the cap times the rows enqueued: delivery cannot go on forever. */
  lemma {:induction false} AttemptsAreBounded(trace: seq<State>, events: seq<Event>, maxAttempts: int, k: nat)
    requires IsRun(trace, events, maxAttempts) && trace[0].rows == [] && k < |trace|
    ensures AttemptsMade(events[..k]) + TotalRemaining(trace[k].rows, maxAttempts) <= |trace[k].rows| * Cap(maxAttempts)
  {
    hide Allowed, Next, TotalRemaining, Remaining, Cap;
    if k == 0 {
      NewRowsRemaining([], maxAttempts);
    } else {
      AttemptsAreBounded(trace, events, maxAttempts, k - 1);
      RunKeepsInv(trace, events, maxAttempts, k - 1);
      assert events[..k][..k - 1] == events[..k - 1];
      StepUsesRemaining(trace[k - 1], events[k - 1], maxAttempts);
    }
  }

  lemma StepUsesRemaining(s: State, e: Event, maxAttempts: int)
    requires Allowed(s, e) && Inv(s, maxAttempts)
    ensures var t := Next(s, e, maxAttempts);
            (if e.step.Deliver? then |e.step.chosen| else 0) + TotalRemaining(t.rows, maxAttempts) - TotalRemaining(s.rows, maxAttempts)
            <= |t.rows| * Cap(maxAttempts) - |s.rows| * Cap(maxAttempts)
  {
    hide TotalRemaining, Remaining, Attempt;
    match e.step
    case Enqueue(added) =>
      RemainingAppend(s.rows, added, maxAttempts);
      NewRowsRemaining(added, maxAttempts);
      assert (|s.rows| + |added|) * Cap(maxAttempts) == |s.rows| * Cap(maxAttempts) + |added| * Cap(maxAttempts);
    case Deliver(maxBatch, chosen, outcomes) =>
      assert forall i: nat | i < |s.rows| && s.rows[i].status == Pending :: RowOk(s.rows[i], s.clock, maxAttempts);
      BatchUsesRemaining(s.rows, e.now, maxBatch, chosen, outcomes, maxAttempts, |chosen|);
  }
}
