/** Delivery of notifications to the business system: a pool of 100 workers, up to five attempts
    per delivery, deferral when the pool is full, a periodic sweep and manual resets. Every
    database write, HTTP call and sleep of a delivery is its own action, so deliveries, sweeps,
    resets and the order lifecycle interleave freely. A disabled action changes nothing. */
module Notify {
  import opened Prelude
  import opened Orders

  type JobId = nat

  const MAX_RETRIES := 5

  const POOL_SIZE := 100

  const SWEEP_LIMIT := 100

  datatype Outcome = NoApp | NoPayload | Delivered(attempts: nat) | GaveUp

  /** Where a delivery stands. `i` counts attempts from zero. */
  datatype Phase =
    | LookingUp
    | Starting
    | Sending(i: nat)
    | Logging(i: nat, ok: bool)
    | Bumping(i: nat, ok: bool)
    | Sleeping(i: nat)
    | Marking(outcome: Outcome)
    | Alerting
    | Returning(outcome: Outcome)
    | Finished(outcome: Outcome)

  /** One delivery; `bumps` and `slept` record what it has done so far. */
  datatype Job = Job(orderNo: OrderNo, pooled: bool, phase: Phase, bumps: nat, slept: nat)

  /** A row of `notify_logs`; `job` is None for a deferral. */
  datatype NotifyLog = NotifyLog(orderNo: OrderNo, job: Option<JobId>, success: bool)

  datatype State = State(
    rows: Table,
    slots: nat,
    jobs: map<JobId, Job>,
    todo: seq<OrderNo>,
    logs: seq<NotifyLog>,
    alerts: seq<JobId>)

  datatype Action =
    | Environment(rows: Table)
    | Dispatch(j: JobId, n: OrderNo, healthy: bool)
    | SweepQuery(found: seq<OrderNo>)
    | SweepDispatch(j: JobId, healthy: bool)
    | Reset(n: OrderNo)
    | Spawn(j: JobId, n: OrderNo)
    | LookupApp(j: JobId, ok: bool)
    | Marshal(j: JobId, ok: bool)
    | Send(j: JobId, ok: bool)
    | SaveLog(j: JobId, healthy: bool)
    | Bump(j: JobId, healthy: bool)
    | Wake(j: JobId)
    | Mark(j: JobId, healthy: bool)
    | Alert(j: JobId)
    | Release(j: JobId)

  // ----- the sweep's query -----

  predicate Eligible(order: Order) {
    order.status == Paid && order.notifyStatus == NotifyPending && order.retryCount < MAX_RETRIES
  }

  /** A result of ListPendingNotifyOrders: eligible orders, oldest first, at most `limit`.
      Orders created at the same moment may come in either order. */
  ghost predicate IsSweep(rows: Table, limit: nat, found: seq<OrderNo>) {
    && |found| <= limit
    && (forall i :: 0 <= i < |found| ==> found[i] in rows && Eligible(rows[found[i]]))
    && (forall i, j :: 0 <= i < j < |found| ==>
          found[i] != found[j] && rows[found[i]].createdAt <= rows[found[j]].createdAt)
    && (forall n :: n in rows && Eligible(rows[n]) && n !in found ==>
          |found| == limit && forall i :: 0 <= i < |found| ==> rows[found[i]].createdAt <= rows[n].createdAt)
  }

  ghost function OlderEligible(rows: Table, n: OrderNo): set<OrderNo>
    requires n in rows
  {
    set m | m in rows && Eligible(rows[m]) && m != n && rows[m].createdAt <= rows[n].createdAt
  }

  ghost function StrictlyOlderEligible(rows: Table, n: OrderNo): set<OrderNo>
    requires n in rows
  {
    set m | m in rows && Eligible(rows[m]) && rows[m].createdAt < rows[n].createdAt
  }

  // ----- steps -----

  /** NotifyAsync and NotifyRefundAsync: take a slot and start a delivery, or record a deferral. */
  function StepDispatch(s: State, j: JobId, n: OrderNo, healthy: bool): State {
    if s.slots < POOL_SIZE
    then s.(slots := s.slots + 1, jobs := s.jobs[j := Job(n, true, LookingUp, 0, 0)])
    else s.(logs := s.logs + if healthy then [NotifyLog(n, None, false)] else [])
  }

  function BumpRow(rows: Table, n: OrderNo, healthy: bool): Table {
    if n in rows && healthy then rows[n := rows[n].(retryCount := rows[n].retryCount + 1)] else rows
  }

  function MarkRow(rows: Table, n: OrderNo, outcome: Outcome, healthy: bool): Table {
    if n in rows && healthy
    then rows[n := rows[n].(notifyStatus := if outcome.Delivered? then Notified else FailedNotify)]
    else rows
  }

  /** After the retry counter: done on success, else back off, else give up. */
  function AfterBump(i: nat, ok: bool): Phase {
    if ok then Marking(Delivered(i + 1))
    else if i < MAX_RETRIES - 1 then Sleeping(i)
    else Marking(GaveUp)
  }

  function Backoff(i: nat): nat {
    if i == 0 then 1 else 2 * Backoff(i - 1)
  }

  predicate Enabled(s: State, a: Action) {
    match a
    case LookupApp(j, _) => j in s.jobs && s.jobs[j].phase == LookingUp
    case Marshal(j, _) => j in s.jobs && s.jobs[j].phase == Starting
    case Send(j, _) => j in s.jobs && s.jobs[j].phase.Sending?
    case SaveLog(j, _) => j in s.jobs && s.jobs[j].phase.Logging?
    case Bump(j, _) => j in s.jobs && s.jobs[j].phase.Bumping?
    case Wake(j) => j in s.jobs && s.jobs[j].phase.Sleeping?
    case Mark(j, _) => j in s.jobs && s.jobs[j].phase.Marking?
    case Alert(j) => j in s.jobs && s.jobs[j].phase.Alerting?
    case Release(j) => j in s.jobs && s.jobs[j].phase.Returning? && (s.jobs[j].pooled ==> s.slots > 0)
    case _ => false
  }

  /** The job after its own action. */
  function NextJob(job: Job, a: Action): Job {
    match (a, job.phase)
    case (LookupApp(_, found), _) => job.(phase := if found then Starting else Returning(NoApp))
    case (Marshal(_, ok), _) => job.(phase := if ok then Sending(0) else Returning(NoPayload))
    case (Send(_, ok), Sending(i)) => job.(phase := Logging(i, ok))
    case (SaveLog(_, _), Logging(i, ok)) => job.(phase := Bumping(i, ok))
    case (Bump(_, healthy), Bumping(i, ok)) =>
      job.(phase := AfterBump(i, ok), bumps := job.bumps + if healthy then 1 else 0)
    case (Wake(_), Sleeping(i)) => job.(phase := Sending(i + 1), slept := job.slept + Backoff(i))
    case (Mark(_, _), Marking(outcome)) =>
      job.(phase := if outcome.Delivered? then Returning(outcome) else Alerting)
    case (Alert(_), Alerting) => job.(phase := Returning(GaveUp))
    case (Release(_), Returning(outcome)) => job.(phase := Finished(outcome))
    case _ => job
  }

  predicate IsJobAction(a: Action) {
    a.LookupApp? || a.Marshal? || a.Send? || a.SaveLog? || a.Bump? || a.Wake? || a.Mark? || a.Alert? || a.Release?
  }

  /** A delivery's own action, with what it writes to the shared tables. */
  function StepJob(s: State, a: Action): State
    requires IsJobAction(a) && Enabled(s, a)
  {
    var job := s.jobs[a.j];
    var s' := s.(jobs := s.jobs[a.j := NextJob(job, a)]);
    match a
    case SaveLog(j, healthy) =>
      s'.(logs := s.logs + if healthy then [NotifyLog(job.orderNo, Some(j), job.phase.ok)] else [])
    case Bump(_, healthy) => s'.(rows := BumpRow(s.rows, job.orderNo, healthy))
    case Mark(_, healthy) => s'.(rows := MarkRow(s.rows, job.orderNo, job.phase.outcome, healthy))
    case Alert(j) => s'.(alerts := s.alerts + [j])
    case Release(_) => s'.(slots := if job.pooled then s.slots - 1 else s.slots)
    case _ => s'
  }

  ghost function Step(s: State, a: Action): State {
    if IsJobAction(a) then (if Enabled(s, a) then StepJob(s, a) else s)
    else match a
      case Environment(rows) => if RowsAdvance(s.rows, rows) then s.(rows := rows) else s
      case Dispatch(j, n, healthy) => if j in s.jobs || n !in s.rows then s else StepDispatch(s, j, n, healthy)
      case SweepQuery(found) => if s.todo != [] || !IsSweep(s.rows, SWEEP_LIMIT, found) then s else s.(todo := found)
      case SweepDispatch(j, healthy) =>
        if j in s.jobs || s.todo == [] then s
        else StepDispatch(s, j, s.todo[0], healthy).(todo := s.todo[1..])
      case Reset(n) =>
        if n !in s.rows then s
        else s.(rows := s.rows[n := s.rows[n].(retryCount := 0, notifyStatus := NotifyPending)])
      case Spawn(j, n) =>
        if j in s.jobs || n !in s.rows then s else s.(jobs := s.jobs[j := Job(n, false, Starting, 0, 0)])
      case _ => s
  }

  const Initial := State(map[], 0, map[], [], [], [])

  ghost function Run(s: State, actions: seq<Action>): State {
    if actions == [] then s
    else Step(Run(s, actions[..|actions| - 1]), actions[|actions| - 1])
  }

  lemma {:induction false} RunOne(s: State, a: Action)
    ensures Run(s, [a]) == Step(s, a)
  {
    assert [a][..0] == [];
  }

  lemma {:induction false} RunSnoc(s: State, actions: seq<Action>, a: Action)
    ensures Run(s, actions + [a]) == Step(Run(s, actions), a)
  {
    assert (actions + [a])[..|actions|] == actions;
  }

  lemma {:induction false} RunAppend(s: State, first: seq<Action>, second: seq<Action>)
    ensures Run(s, first + second) == Run(Run(s, first), second)
  {
    hide Step;
    if second == [] {
      assert first + second == first;
    } else {
      var init := second[..|second| - 1];
      RunAppend(s, first, init);
      assert (first + second)[..|first + second| - 1] == first + init;
    }
  }

  // ----- the worker pool -----

  predicate Live(job: Job) {
    !job.phase.Finished?
  }

  ghost function PooledLive(jobs: map<JobId, Job>): set<JobId> {
    set j | j in jobs && jobs[j].pooled && Live(jobs[j])
  }

  /** Occupied slots are exactly the pooled deliveries still running, and never exceed the pool. */
  ghost predicate PoolBalanced(s: State) {
    s.slots == |PooledLive(s.jobs)| <= 100
  }

  /** A step adds a pooled delivery with its slot, ends one with its slot, or does neither. */
  lemma {:induction false} StepPool(s: State, a: Action)
    ensures
      var s' := Step(s, a);
      if (a.Dispatch? || a.SweepDispatch?) && s'.slots > s.slots
      then a.j !in s.jobs && s'.slots == s.slots + 1 <= POOL_SIZE && PooledLive(s'.jobs) == PooledLive(s.jobs) + {a.j}
      else if a.Release? && Enabled(s, a) && s.jobs[a.j].pooled
      then a.j in PooledLive(s.jobs) && s'.slots == s.slots - 1 && PooledLive(s'.jobs) == PooledLive(s.jobs) - {a.j}
      else s'.slots == s.slots && PooledLive(s'.jobs) == PooledLive(s.jobs)
  {
    var s' := Step(s, a);
    if IsJobAction(a) {
      JobStepPool(s, a);
    } else if (a.Dispatch? || a.SweepDispatch?) && s'.slots > s.slots {
      assert PooledLive(s'.jobs) == PooledLive(s.jobs) + {a.j};
    } else {
      assert PooledLive(s'.jobs) == PooledLive(s.jobs);
    }
  }

  lemma {:induction false} JobStepPool(s: State, a: Action)
    requires IsJobAction(a)
    ensures
      var s' := Step(s, a);
      if a.Release? && Enabled(s, a) && s.jobs[a.j].pooled
      then a.j in PooledLive(s.jobs) && s'.slots == s.slots - 1 && PooledLive(s'.jobs) == PooledLive(s.jobs) - {a.j}
      else s'.slots == s.slots && PooledLive(s'.jobs) == PooledLive(s.jobs)
  {
    var s' := Step(s, a);
    if Enabled(s, a) {
      var job, job' := s.jobs[a.j], NextJob(s.jobs[a.j], a);
      assert s'.jobs == s.jobs[a.j := job'];
      assert Live(job) && (Live(job') <==> !a.Release?) && job'.pooled == job.pooled;
      if a.Release? && job.pooled {
        assert PooledLive(s'.jobs) == PooledLive(s.jobs) - {a.j};
      } else {
        assert PooledLive(s'.jobs) == PooledLive(s.jobs);
      }
    }
  }

  lemma {:induction false} StepKeepsPool(s: State, a: Action)
    requires PoolBalanced(s)
    ensures PoolBalanced(Step(s, a))
  {
    StepPool(s, a);
  }

  /** Every run keeps the pool balanced, whatever fails, and with any number of manual deliveries outside it. */
  lemma {:induction false} PoolAlwaysBalanced(actions: seq<Action>)
    ensures PoolBalanced(Run(Initial, actions))
  {
    if actions == [] {
      assert PooledLive(Initial.jobs) == {};
    } else {
      PoolAlwaysBalanced(actions[..|actions| - 1]);
      StepKeepsPool(Run(Initial, actions[..|actions| - 1]), actions[|actions| - 1]);
    }
  }

  /** A dispatch takes a slot for a new delivery exactly when fewer than 100 pooled deliveries run;
      otherwise it leaves one deferral log. The order row is untouched either way. */
  lemma {:induction false} DispatchTakesSlotOrDefers(s: State, j: JobId, n: OrderNo, healthy: bool)
    requires PoolBalanced(s) && j !in s.jobs && n in s.rows
    ensures
      var s' := Step(s, Dispatch(j, n, healthy));
      && s'.rows == s.rows && s'.alerts == s.alerts
      && (|PooledLive(s.jobs)| < 100 ==>
            s'.jobs == s.jobs[j := Job(n, true, LookingUp, 0, 0)] && s'.slots == s.slots + 1 && s'.logs == s.logs)
      && (|PooledLive(s.jobs)| >= 100 ==>
            s'.jobs == s.jobs && s'.slots == s.slots
            && s'.logs == s.logs + if healthy then [NotifyLog(n, None, false)] else [])
  {
    var s' := Step(s, Dispatch(j, n, healthy));
    if s.slots < POOL_SIZE {
      assert PooledLive(s'.jobs) == PooledLive(s.jobs) + {j};
    }
  }

  // ----- no pending order is stranded -----

  /** The delivery has raised the retry counter and has its final status write ahead of it. */
  predicate WillMark(job: Job) {
    job.bumps > 0 && !job.phase.Alerting? && !job.phase.Returning? && !job.phase.Finished?
  }

  ghost predicate Covered(s: State, n: OrderNo) {
    exists j :: j in s.jobs && s.jobs[j].orderNo == n && WillMark(s.jobs[j])
  }

  ghost predicate NothingStranded(s: State) {
    && (forall n :: n in s.rows ==> s.rows[n].retryCount >= 0)
    && (forall n :: n in s.rows && s.rows[n].notifyStatus == NotifyPending && s.rows[n].retryCount > 0 ==>
        Covered(s, n))
    && (forall j :: j in s.jobs && (s.jobs[j].phase == LookingUp || s.jobs[j].phase == Starting) ==>
        s.jobs[j].bumps == 0)
  }

  predicate MarkSucceeds(a: Action) {
    a.Mark? ==> a.healthy
  }

  lemma {:induction false} JobStep(s: State, a: Action, j: JobId)
    requires j in s.jobs
    ensures j in Step(s, a).jobs
    ensures Step(s, a).jobs[j] == s.jobs[j] || (IsJobAction(a) && a.j == j && Enabled(s, a)
                                                && Step(s, a).jobs[j] == NextJob(s.jobs[j], a))
    ensures Step(s, a).jobs[j].orderNo == s.jobs[j].orderNo && Step(s, a).jobs[j].pooled == s.jobs[j].pooled
  {
  }

  lemma {:induction false} NewJob(s: State, a: Action, j: JobId)
    requires j !in s.jobs && j in Step(s, a).jobs
    ensures
      var job := Step(s, a).jobs[j];
      && job.bumps == 0 && job.slept == 0 && job.phase == (if a.Spawn? then Starting else LookingUp)
      && (a.Spawn? || a.Dispatch? || a.SweepDispatch?)
  {
  }

  /** How a step changes the notification columns of a row. */
  lemma {:induction false} StepColumns(s: State, a: Action, n: OrderNo)
    requires n in Step(s, a).rows
    ensures
      var after := Step(s, a).rows[n];
      if a.Bump? && Enabled(s, a) && a.healthy && s.jobs[a.j].orderNo == n
      then n in s.rows && after.retryCount == s.rows[n].retryCount + 1
      else if a.Mark? && Enabled(s, a) && a.healthy && s.jobs[a.j].orderNo == n
      then n in s.rows && after.retryCount == s.rows[n].retryCount
           && after.notifyStatus == if s.jobs[a.j].phase.outcome.Delivered? then Notified else FailedNotify
      else if (a.Reset? && a.n == n) || n !in s.rows then after.retryCount == 0 && after.notifyStatus == NotifyPending
      else after.notifyStatus == s.rows[n].notifyStatus && after.retryCount == s.rows[n].retryCount
  {
  }

  /** A manual retry puts any paid order back in reach of the sweep, whatever its deliveries did before,
      and the delivery it starts is one of that order. */
  lemma {:induction false} ResetMakesEligible(s: State, j: JobId, n: OrderNo)
    requires n in s.rows && s.rows[n].status == Paid
    ensures
      var s' := Step(s, Reset(n));
      && n in s'.rows && Eligible(s'.rows[n])
      && (forall m :: m in s.rows && m != n ==> m in s'.rows && s'.rows[m] == s.rows[m])
      && (j !in s.jobs ==> Step(s', Spawn(j, n)).jobs == s.jobs[j := Job(n, false, Starting, 0, 0)])
      && Step(s', Spawn(j, n)).rows == s'.rows
  {
    StepColumns(s, Reset(n), n);
  }

  /** The delivery that covers an order stops doing so only by writing its status. */
  lemma {:induction false} NextWillMark(s: State, a: Action, j: JobId)
    requires j in s.jobs && WillMark(s.jobs[j])
    requires s.jobs[j].phase != LookingUp && s.jobs[j].phase != Starting
    requires !(a.Mark? && Enabled(s, a) && a.j == j)
    ensures j in Step(s, a).jobs && WillMark(Step(s, a).jobs[j])
  {
    JobStep(s, a, j);
    hide Step;
  }

  lemma {:induction false} StepKeepsCovered(s: State, a: Action, n: OrderNo)
    requires NothingStranded(s) && MarkSucceeds(a)
    requires n in Step(s, a).rows
    requires Step(s, a).rows[n].notifyStatus == NotifyPending && Step(s, a).rows[n].retryCount > 0
    ensures Covered(Step(s, a), n)
  {
    StepColumns(s, a, n);
    hide Step;
    if a.Bump? && Enabled(s, a) && a.healthy && s.jobs[a.j].orderNo == n {
      JobStep(s, a, a.j);
      OwnStep(s, a);
      assert WillMark(Step(s, a).jobs[a.j]);
    } else {
      var j :| j in s.jobs && s.jobs[j].orderNo == n && WillMark(s.jobs[j]);
      JobStep(s, a, j);
      NextWillMark(s, a, j);
    }
  }

  lemma {:induction false} OwnStep(s: State, a: Action)
    requires IsJobAction(a) && Enabled(s, a)
    ensures Step(s, a).jobs == s.jobs[a.j := NextJob(s.jobs[a.j], a)]
  {
  }

  lemma {:induction false} StepKeepsNothingStranded(s: State, a: Action)
    requires NothingStranded(s) && MarkSucceeds(a)
    ensures NothingStranded(Step(s, a))
  {
    hide Step, Covered;
    var s' := Step(s, a);
    forall n | n in s'.rows
      ensures s'.rows[n].retryCount >= 0
      ensures s'.rows[n].notifyStatus == NotifyPending && s'.rows[n].retryCount > 0 ==> Covered(s', n)
    {
      StepColumns(s, a, n);
      if s'.rows[n].notifyStatus == NotifyPending && s'.rows[n].retryCount > 0 {
        StepKeepsCovered(s, a, n);
      }
    }
    forall j | j in s'.jobs && (s'.jobs[j].phase == LookingUp || s'.jobs[j].phase == Starting)
      ensures s'.jobs[j].bumps == 0
    {
      if j in s.jobs {
        JobStep(s, a, j);
      } else {
        NewJob(s, a, j);
      }
    }
  }

  /** In every run whose final status writes succeed, an order that is pending with a raised retry
      counter has a delivery that will still write its status. Failed logs and counters do not matter. */
  lemma {:induction false} PendingOrdersCovered(actions: seq<Action>)
    requires forall i :: 0 <= i < |actions| ==> MarkSucceeds(actions[i])
    ensures NothingStranded(Run(Initial, actions))
  {
    if actions != [] {
      PendingOrdersCovered(actions[..|actions| - 1]);
      StepKeepsNothingStranded(Run(Initial, actions[..|actions| - 1]), actions[|actions| - 1]);
    }
  }

  /** So once no delivery runs, every paid order still pending meets the sweep's filter, with counter zero. */
  lemma {:induction false} QuietPendingOrdersSwept(actions: seq<Action>, n: OrderNo)
    requires forall i :: 0 <= i < |actions| ==> MarkSucceeds(actions[i])
    ensures
      var s := Run(Initial, actions);
      (forall j :: j in s.jobs ==> !Live(s.jobs[j])) && n in s.rows
      && s.rows[n].status == Paid && s.rows[n].notifyStatus == NotifyPending
      ==> s.rows[n].retryCount == 0 && Eligible(s.rows[n])
  {
    PendingOrdersCovered(actions);
  }
}
