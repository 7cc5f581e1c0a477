/** What one delivery leaves behind by the time it ends, however it interleaves with the rest,
    and why it ends. */
module Deliveries {
  import opened Prelude
  import opened Orders
  import opened Notify

  // ----- the trail of one delivery -----

  function LogsOf(logs: seq<NotifyLog>, j: JobId): seq<bool> {
    if logs == [] then []
    else
      var last := logs[|logs| - 1];
      LogsOf(logs[..|logs| - 1], j) + if last.job == Some(j) then [last.success] else []
  }

  function AlertsOf(alerts: seq<JobId>, j: JobId): nat {
    if alerts == [] then 0
    else AlertsOf(alerts[..|alerts| - 1], j) + if alerts[|alerts| - 1] == j then 1 else 0
  }

  function Failures(k: nat): seq<bool> {
    seq(k, _ => false)
  }

  /** The delivery sent k requests: all failed but for a last success if it was delivered, and it
      waited 1 + 2 + 4 + ... seconds between them, which is Backoff(k - 1) - 1. */
  ghost predicate Trail(outcome: Outcome, logs: seq<bool>, bumps: nat, slept: nat) {
    match outcome
    case NoApp | NoPayload => logs == [] && bumps == 0 && slept == 0
    case Delivered(k) => 1 <= k <= MAX_RETRIES && logs == Failures(k - 1) + [true] && bumps == k
        && slept == Backoff(k - 1) - 1
    case GaveUp => logs == Failures(MAX_RETRIES) && bumps == MAX_RETRIES && slept == Backoff(MAX_RETRIES - 1) - 1
  }

  ghost predicate HistoryOf(job: Job, logs: seq<bool>, alerts: nat) {
    match job.phase
    case LookingUp | Starting => Trail(NoApp, logs, job.bumps, job.slept) && alerts == 0
    case Sending(i) => i < MAX_RETRIES && logs == Failures(i) && job.bumps == i && job.slept == Backoff(i) - 1
        && alerts == 0
    case Logging(i, _) => i < MAX_RETRIES && logs == Failures(i) && job.bumps == i && job.slept == Backoff(i) - 1
        && alerts == 0
    case Bumping(i, ok) =>
      i < MAX_RETRIES && logs == Failures(i) + [ok] && job.bumps == i && job.slept == Backoff(i) - 1 && alerts == 0
    case Sleeping(i) =>
      i < MAX_RETRIES - 1 && logs == Failures(i + 1) && job.bumps == i + 1 && job.slept == Backoff(i) - 1 && alerts == 0
    case Marking(outcome) =>
      (outcome.Delivered? || outcome.GaveUp?) && Trail(outcome, logs, job.bumps, job.slept) && alerts == 0
    case Alerting => Trail(GaveUp, logs, job.bumps, job.slept) && alerts == 0
    case Returning(outcome) => Trail(outcome, logs, job.bumps, job.slept)
        && alerts == (if outcome.GaveUp? then 1 else 0)
    case Finished(outcome) => Trail(outcome, logs, job.bumps, job.slept) && alerts == (if outcome.GaveUp? then 1 else 0)
  }

  ghost predicate History(s: State, j: JobId) {
    var logs, alerts := LogsOf(s.logs, j), AlertsOf(s.alerts, j);
    if j in s.jobs then HistoryOf(s.jobs[j], logs, alerts) else logs == [] && alerts == 0
  }

  /** The delivery's own log and counter writes succeed. */
  predicate Recorded(a: Action, j: JobId) {
    (a.SaveLog? || a.Bump?) && a.j == j ==> a.healthy
  }

  /** A step logs, or alerts, for a delivery only in that delivery's own action. */
  lemma {:induction false} StepTrail(s: State, a: Action, j: JobId)
    requires Recorded(a, j)
    ensures LogsOf(Step(s, a).logs, j) == if a.SaveLog? && Enabled(s, a) && a.j == j
                                          then LogsOf(s.logs, j) + [s.jobs[j].phase.ok] else LogsOf(s.logs, j)
    ensures AlertsOf(Step(s, a).alerts, j) == AlertsOf(s.alerts, j)
              + if a.Alert? && Enabled(s, a) && a.j == j then 1 else 0
  {
    var s' := Step(s, a);
    assert s'.logs == s.logs || (|s'.logs| == |s.logs| + 1 && s'.logs[..|s.logs|] == s.logs);
    assert s'.alerts == s.alerts || (|s'.alerts| == |s.alerts| + 1 && s'.alerts[..|s.alerts|] == s.alerts);
    assert LogsOf(s.logs, j) + [] == LogsOf(s.logs, j);
  }

  lemma {:induction false} FailuresGrow(i: nat)
    ensures Failures(0) == [] && Failures(i) + [false] == Failures(i + 1)
    ensures Backoff(i + 1) == 2 * Backoff(i) && Backoff(0) == 1
  {
  }

  /** An attempt that failed: back off, or give up after the fifth. */
  lemma {:induction false} BumpHistory(job: Job, a: Action, logs: seq<bool>)
    requires a.Bump? && job.phase.Bumping? && a.healthy && HistoryOf(job, logs, 0)
    ensures HistoryOf(NextJob(job, a), logs, 0)
  {
    FailuresGrow(job.phase.i);
    hide Failures, Backoff;
  }

  lemma {:induction false} WakeHistory(job: Job, a: Action, logs: seq<bool>)
    requires a.Wake? && job.phase.Sleeping? && HistoryOf(job, logs, 0)
    ensures HistoryOf(NextJob(job, a), logs, 0)
  {
    FailuresGrow(job.phase.i);
    hide Failures, Backoff;
  }

  lemma {:induction false} MarshalHistory(job: Job, a: Action, logs: seq<bool>)
    requires (a.LookupApp? && job.phase == LookingUp) || (a.Marshal? && job.phase == Starting)
    requires HistoryOf(job, logs, 0)
    ensures HistoryOf(NextJob(job, a), logs, 0)
  {
    FailuresGrow(0);
    hide Failures, Backoff;
  }

  lemma {:induction false} NextHistory(job: Job, a: Action, logs: seq<bool>, alerts: nat)
    requires HistoryOf(job, logs, alerts) && IsJobAction(a) && Recorded(a, a.j)
    requires Enabled(State(map[], 1, map[a.j := job], [], [], []), a)
    ensures HistoryOf(NextJob(job, a), if a.SaveLog? then logs + [job.phase.ok] else logs,
                      alerts + if a.Alert? then 1 else 0)
  {
    hide Failures, Backoff;
    match a {
      case Bump(_, _) => BumpHistory(job, a, logs);
      case Wake(_) => WakeHistory(job, a, logs);
      case LookupApp(_, _) => MarshalHistory(job, a, logs);
      case Marshal(_, _) => MarshalHistory(job, a, logs);
      case _ =>
    }
  }

  lemma {:induction false} StepKeepsHistory(s: State, a: Action, j: JobId)
    requires History(s, j) && Recorded(a, j)
    ensures History(Step(s, a), j)
  {
    hide Step, Failures, Backoff, LogsOf, AlertsOf, NextJob;
    StepTrail(s, a, j);
    if j in s.jobs {
      JobStep(s, a, j);
      if IsJobAction(a) && a.j == j && Enabled(s, a) {
        NextHistory(s.jobs[j], a, LogsOf(s.logs, j), AlertsOf(s.alerts, j));
        OwnStep(s, a);
      }
      hide HistoryOf;
    } else if j in Step(s, a).jobs {
      NewJob(s, a, j);
    }
  }

  /** In every run in which the delivery's own log and counter writes succeed, once it has ended after k
      attempts it left k logs and k increments, slept 2^(k-1) - 1 seconds, and either was delivered by its
      last attempt alone or failed five times and raised one alert. */
  lemma {:induction false} DeliveryTrail(actions: seq<Action>, j: JobId)
    requires forall i :: 0 <= i < |actions| ==> Recorded(actions[i], j)
    ensures History(Run(Initial, actions), j)
  {
    hide Step, HistoryOf;
    if actions == [] {
      assert LogsOf([], j) == [] && AlertsOf([], j) == 0;
    } else {
      DeliveryTrail(actions[..|actions| - 1], j);
      StepKeepsHistory(Run(Initial, actions[..|actions| - 1]), actions[|actions| - 1], j);
    }
  }

  /** The same in numbers, for a delivery that has ended. */
  lemma {:induction false} EndedDelivery(actions: seq<Action>, j: JobId)
    requires forall i :: 0 <= i < |actions| ==> Recorded(actions[i], j)
    requires j in Run(Initial, actions).jobs && Run(Initial, actions).jobs[j].phase.Finished?
    ensures
      var s := Run(Initial, actions);
      var job, logs, alerts := s.jobs[j], LogsOf(s.logs, j), AlertsOf(s.alerts, j);
      match job.phase.outcome
      case NoApp | NoPayload => logs == [] && alerts == 0 && job.bumps == 0 && job.slept == 0
      case Delivered(k) =>
        && 1 <= k <= 5 && |logs| == k && (forall h :: 0 <= h < k ==> logs[h] == (h == k - 1))
        && alerts == 0 && job.bumps == k && job.slept == [0, 1, 3, 7, 15][k - 1]
      case GaveUp => logs == [false, false, false, false, false] && alerts == 1 && job.bumps == 5 && job.slept == 15
  {
    DeliveryTrail(actions, j);
    hide Run, LogsOf, AlertsOf, Backoff;
    BackoffDoubles();
  }

  lemma {:induction false} BackoffDoubles()
    ensures Backoff(0) == 1 && Backoff(1) == 2 && Backoff(2) == 4 && Backoff(3) == 8 && Backoff(4) == 16
  {
    assert Backoff(2) == 4;
  }

  // ----- every delivery ends -----

  /** Attempts start only below MAX_RETRIES. */
  predicate AttemptBounded(phase: Phase) {
    match phase
    case Sending(i) => i < MAX_RETRIES
    case Logging(i, _) => i < MAX_RETRIES
    case Bumping(i, _) => i < MAX_RETRIES
    case Sleeping(i) => i < MAX_RETRIES - 1
    case _ => true
  }

  ghost predicate AttemptsBounded(s: State) {
    forall j :: j in s.jobs ==> AttemptBounded(s.jobs[j].phase)
  }

  /** An upper bound on the actions a delivery still has to take. */
  function Rank(phase: Phase): nat
    requires AttemptBounded(phase)
  {
    match phase
    case LookingUp => 25
    case Starting => 24
    case Sending(i) => 4 * (MAX_RETRIES - i) + 3
    case Logging(i, _) => 4 * (MAX_RETRIES - i) + 2
    case Bumping(i, _) => 4 * (MAX_RETRIES - i) + 1
    case Sleeping(i) => 4 * (MAX_RETRIES - i)
    case Marking(_) => 3
    case Alerting => 2
    case Returning(_) => 1
    case Finished(_) => 0
  }

  lemma {:induction false} NextRank(s: State, a: Action)
    requires IsJobAction(a) && Enabled(s, a) && AttemptBounded(s.jobs[a.j].phase)
    ensures
      var next := NextJob(s.jobs[a.j], a);
      AttemptBounded(next.phase) && Rank(next.phase) < Rank(s.jobs[a.j].phase)
  {
  }

  lemma {:induction false} StepKeepsAttempts(s: State, a: Action)
    requires AttemptsBounded(s)
    ensures AttemptsBounded(Step(s, a))
    ensures forall j :: j in s.jobs && Step(s, a).jobs[j] != s.jobs[j] ==>
              Rank(Step(s, a).jobs[j].phase) < Rank(s.jobs[j].phase)
  {
    hide Step, Rank;
    var s' := Step(s, a);
    forall j | j in s.jobs
      ensures j in s'.jobs && AttemptBounded(s'.jobs[j].phase)
      ensures s'.jobs[j] != s.jobs[j] ==> Rank(s'.jobs[j].phase) < Rank(s.jobs[j].phase)
    {
      JobStep(s, a, j);
      if IsJobAction(a) && a.j == j && Enabled(s, a) {
        NextRank(s, a);
      }
    }
    forall j | j in s'.jobs && j !in s.jobs
      ensures AttemptBounded(s'.jobs[j].phase)
    {
      NewJob(s, a, j);
    }
  }

  /** The number of actions of a run that change delivery j. */
  ghost function Moves(s: State, actions: seq<Action>, j: JobId): nat {
    if actions == [] then 0
    else
      var before := Run(s, actions[..|actions| - 1]);
      Moves(s, actions[..|actions| - 1], j)
      + if j in before.jobs && Step(before, actions[|actions| - 1]).jobs[j] != before.jobs[j] then 1 else 0
  }

  /** A delivery takes at most 25 actions of its own, in every run. */
  lemma {:induction false} DeliveryEnds(s: State, actions: seq<Action>, j: JobId)
    requires AttemptsBounded(s)
    requires j in s.jobs
    ensures AttemptsBounded(Run(s, actions)) && j in Run(s, actions).jobs
    ensures Moves(s, actions, j) + Rank(Run(s, actions).jobs[j].phase) <= Rank(s.jobs[j].phase) <= 25
  {
    if actions != [] {
      var init, last := actions[..|actions| - 1], actions[|actions| - 1];
      DeliveryEnds(s, init, j);
      StepKeepsAttempts(Run(s, init), last);
      JobStep(Run(s, init), last, j);
    }
  }

  /** The next action of a delivery that has not ended. */
  function NextAction(job: Job, j: JobId): Action
    requires Live(job)
  {
    match job.phase
    case LookingUp => LookupApp(j, true)
    case Starting => Marshal(j, true)
    case Sending(_) => Send(j, true)
    case Logging(_, _) => SaveLog(j, true)
    case Bumping(_, _) => Bump(j, true)
    case Sleeping(_) => Wake(j)
    case Marking(_) => Mark(j, true)
    case Alerting => Alert(j)
    case Returning(_) => Release(j)
  }

  lemma {:induction false} NextActionRuns(s: State, j: JobId)
    requires AttemptsBounded(s) && PoolBalanced(s) && j in s.jobs && Live(s.jobs[j])
    ensures
      var s' := Step(s, NextAction(s.jobs[j], j));
      && AttemptsBounded(s') && PoolBalanced(s') && j in s'.jobs && s'.jobs == s.jobs[j := s'.jobs[j]]
      && s'.jobs[j].orderNo == s.jobs[j].orderNo && s'.jobs[j].pooled == s.jobs[j].pooled
      && Rank(s'.jobs[j].phase) < Rank(s.jobs[j].phase)
      && s'.slots == if s.jobs[j].pooled && !Live(s'.jobs[j]) then s.slots - 1 else s.slots
  {
    var a := NextAction(s.jobs[j], j);
    if s.jobs[j].pooled {
      assert j in PooledLive(s.jobs);
    }
    assert IsJobAction(a) && a.j == j && Enabled(s, a);
    StepKeepsAttempts(s, a);
    StepKeepsPool(s, a);
    JobStepPool(s, a);
    assert Step(s, a) == StepJob(s, a);
    hide Step;
  }

  ghost predicate EndsAlone(s: State, s': State, j: JobId)
    requires j in s.jobs
  {
    && j in s'.jobs && !Live(s'.jobs[j]) && s'.jobs[j].orderNo == s.jobs[j].orderNo
    && s'.jobs == s.jobs[j := s'.jobs[j]]
    && s'.slots == if s.jobs[j].pooled && Live(s.jobs[j]) then s.slots - 1 else s.slots
  }

  /** A delivery that has not ended is never blocked: its own actions bring it to its end,
      freeing its slot and leaving every other delivery alone. */
  lemma {:induction false} CanEnd(s: State, j: JobId) returns (actions: seq<Action>)
    requires AttemptsBounded(s) && PoolBalanced(s) && j in s.jobs
    ensures EndsAlone(s, Run(s, actions), j)
    decreases Rank(s.jobs[j].phase)
  {
    hide Step, Rank, NextAction, PoolBalanced;
    actions := [];
    if Live(s.jobs[j]) {
      hide Run;
      var a := NextAction(s.jobs[j], j);
      NextActionRuns(s, j);
      var rest := CanEnd(Step(s, a), j);
      RunOne(s, a);
      RunAppend(s, [a], rest);
      actions := [a] + rest;
      EndsAloneStep(s, Step(s, a), Run(s, actions), j);
    }
  }

  lemma {:induction false} EndsAloneStep(s: State, mid: State, s': State, j: JobId)
    requires j in s.jobs && Live(s.jobs[j]) && j in mid.jobs
    requires mid.jobs == s.jobs[j := mid.jobs[j]] && mid.jobs[j].orderNo == s.jobs[j].orderNo
    requires mid.jobs[j].pooled == s.jobs[j].pooled
    requires mid.slots == if s.jobs[j].pooled && !Live(mid.jobs[j]) then s.slots - 1 else s.slots
    requires EndsAlone(mid, s', j)
    ensures EndsAlone(s, s', j)
  {
    assert s.jobs[j := s'.jobs[j]] == mid.jobs[j := s'.jobs[j]];
  }

  // ----- overlapping deliveries of one order -----

  /** The delivery may still see all its attempts fail. */
  predicate MayGiveUp(job: Job) {
    match job.phase
    case LookingUp | Starting | Sending(_) | Sleeping(_) => true
    case Logging(_, ok) => !ok
    case Bumping(_, ok) => !ok
    case Marking(outcome) => !outcome.Delivered?
    case _ => false
  }

  ghost predicate SomeMayGiveUp(s: State, n: OrderNo) {
    exists j :: j in s.jobs && s.jobs[j].orderNo == n && MayGiveUp(s.jobs[j])
  }

  /** No step of the run starts a delivery of order n. */
  ghost predicate NoNewDelivery(s: State, actions: seq<Action>, n: OrderNo) {
    actions == [] ||
    var init, last := actions[..|actions| - 1], actions[|actions| - 1];
    && NoNewDelivery(s, init, n)
    && forall j :: j in Step(Run(s, init), last).jobs && j !in Run(s, init).jobs ==>
         Step(Run(s, init), last).jobs[j].orderNo != n
  }

  predicate NotFailed(s: State, n: OrderNo) {
    n in s.rows && s.rows[n].notifyStatus != FailedNotify
  }

  lemma {:induction false} StepKeepsNotFailed(s: State, a: Action, n: OrderNo)
    requires NotFailed(s, n) && !SomeMayGiveUp(s, n)
    requires forall j :: j in Step(s, a).jobs && j !in s.jobs ==> Step(s, a).jobs[j].orderNo != n
    ensures NotFailed(Step(s, a), n) && !SomeMayGiveUp(Step(s, a), n)
  {
    forall j | j in Step(s, a).jobs && Step(s, a).jobs[j].orderNo == n
      ensures !MayGiveUp(Step(s, a).jobs[j])
    {
      JobStep(s, a, j);
    }
  }

  lemma {:induction false} RunKeepsNotFailed(s: State, actions: seq<Action>, n: OrderNo)
    requires NotFailed(s, n) && !SomeMayGiveUp(s, n) && NoNewDelivery(s, actions, n)
    ensures NotFailed(Run(s, actions), n) && !SomeMayGiveUp(Run(s, actions), n)
  {
    if actions != [] {
      RunKeepsNotFailed(s, actions[..|actions| - 1], n);
      StepKeepsNotFailed(Run(s, actions[..|actions| - 1]), actions[|actions| - 1], n);
    }
  }

  /** The next action of a delivery whose request fails. */
  function FailingAction(job: Job, j: JobId): Action
    requires MayGiveUp(job)
  {
    if job.phase.Sending? then Send(j, false) else NextAction(job, j)
  }

  lemma {:induction false} FailingActionRuns(s: State, j: JobId)
    requires AttemptsBounded(s) && j in s.jobs && MayGiveUp(s.jobs[j]) && s.jobs[j].orderNo in s.rows
    ensures
      var a, n := FailingAction(s.jobs[j], j), s.jobs[j].orderNo;
      var s' := Step(s, a);
      && IsJobAction(a) && AttemptsBounded(s') && j in s'.jobs && s'.jobs[j].orderNo == n && n in s'.rows
      && Rank(s'.jobs[j].phase) < Rank(s.jobs[j].phase)
      && if a.Mark? then s'.rows[n].notifyStatus == FailedNotify else MayGiveUp(s'.jobs[j])
  {
    var a := FailingAction(s.jobs[j], j);
    assert IsJobAction(a) && a.j == j && Enabled(s, a);
    StepKeepsAttempts(s, a);
    assert Step(s, a) == StepJob(s, a);
    hide Step;
  }

  /** A delivery that may still give up can do so by its own actions alone. */
  lemma {:induction false} CanGiveUp(s: State, j: JobId) returns (actions: seq<Action>)
    requires AttemptsBounded(s) && j in s.jobs && MayGiveUp(s.jobs[j]) && s.jobs[j].orderNo in s.rows
    ensures forall i :: 0 <= i < |actions| ==> IsJobAction(actions[i])
    ensures
      var n, s' := s.jobs[j].orderNo, Run(s, actions);
      n in s'.rows && s'.rows[n].notifyStatus == FailedNotify
    decreases Rank(s.jobs[j].phase)
  {
    hide Step, Run, Rank, MayGiveUp;
    var a := FailingAction(s.jobs[j], j);
    FailingActionRuns(s, j);
    RunOne(s, a);
    actions := [a];
    if !a.Mark? {
      var rest := CanGiveUp(Step(s, a), j);
      RunAppend(s, [a], rest);
      actions := [a] + rest;
    }
  }

  lemma {:induction false} OwnActionsStartNothing(s: State, actions: seq<Action>, n: OrderNo)
    requires forall i :: 0 <= i < |actions| ==> IsJobAction(actions[i])
    ensures NoNewDelivery(s, actions, n)
  {
    if actions != [] {
      OwnActionsStartNothing(s, actions[..|actions| - 1], n);
      var before, last := Run(s, actions[..|actions| - 1]), actions[|actions| - 1];
      assert Step(before, last).jobs.Keys == before.jobs.Keys;
    }
  }

  lemma {:induction false} AttemptsAlwaysBounded(actions: seq<Action>)
    ensures AttemptsBounded(Run(Initial, actions))
  {
    if actions != [] {
      AttemptsAlwaysBounded(actions[..|actions| - 1]);
      StepKeepsAttempts(Run(Initial, actions[..|actions| - 1]), actions[|actions| - 1]);
    }
  }

  ghost predicate EndsFailed(s: State, actions: seq<Action>, n: OrderNo) {
    NoNewDelivery(s, actions, n) && n in Run(s, actions).rows && Run(s, actions).rows[n].notifyStatus == FailedNotify
  }

  /** The final write is unguarded, and sweeps, refunds and manual retries start deliveries of an order
      beside each other. In any reachable state, an order that is notified, or pending, can end up failed
      without a new delivery exactly when one of its deliveries may still fail all its attempts. */
  lemma {:induction false} FailureOverwritesExactlyWhen(prefix: seq<Action>, n: OrderNo)
    requires NotFailed(Run(Initial, prefix), n)
    ensures (exists actions :: EndsFailed(Run(Initial, prefix), actions, n)) <==> SomeMayGiveUp(Run(Initial, prefix), n)
  {
    var s := Run(Initial, prefix);
    AttemptsAlwaysBounded(prefix);
    if SomeMayGiveUp(s, n) {
      var j :| j in s.jobs && s.jobs[j].orderNo == n && MayGiveUp(s.jobs[j]);
      var actions := CanGiveUp(s, j);
      OwnActionsStartNothing(s, actions, n);
      assert EndsFailed(s, actions, n);
    } else {
      forall actions | NoNewDelivery(s, actions, n)
        ensures !EndsFailed(s, actions, n)
      {
        RunKeepsNotFailed(s, actions, n);
      }
    }
  }

  // ----- a notified order with another delivery under way -----

  /** Two dispatches of one order, the first of them delivered by its first attempt. */
  function OneDelivered(n: OrderNo, order: Order): seq<Action> {
    [Environment(map[n := order]), Dispatch(0, n, true), Dispatch(1, n, true)]
    + [LookupApp(0, true), Marshal(0, true), Send(0, true)]
    + [SaveLog(0, true), Bump(0, true), Mark(0, true)]
  }

  lemma {:induction false} RunThree(s: State, a: Action, b: Action, c: Action)
    ensures Run(s, [a, b, c]) == Step(Step(Step(s, a), b), c)
  {
    RunOne(s, a);
    RunSnoc(s, [a], b);
    RunSnoc(s, [a, b], c);
    assert [a] + [b] == [a, b] && [a, b] + [c] == [a, b, c];
  }

  /** So success can be lost in a run from nothing: the order is notified, and its second delivery, which
      has sent nothing yet, may still give up. */
  lemma {:induction false} SuccessCanBeLost(n: OrderNo, order: Order)
    requires order.notifyStatus == NotifyPending && order.retryCount == 0
    ensures
      var s := Run(Initial, OneDelivered(n, order));
      && n in s.rows && s.rows[n].notifyStatus == Notified
      && exists actions :: EndsFailed(s, actions, n)
  {
    var first, second, third := OneDelivered(n, order)[..3], OneDelivered(n, order)[3..6], OneDelivered(n, order)[6..];
    assert OneDelivered(n, order) == first + second + third;
    RunAppend(Initial, first + second, third);
    RunAppend(Initial, first, second);
    RunThree(Initial, first[0], first[1], first[2]);
    DispatchTwice(n, order);
    var s1 := Run(Initial, first);
    RunThree(s1, second[0], second[1], second[2]);
    SendFirst(s1, n);
    var s2 := Run(s1, second);
    RunThree(s2, third[0], third[1], third[2]);
    MarkFirst(s2, n);
    var s := Run(Initial, OneDelivered(n, order));
    hide Step, Run;
    assert SomeMayGiveUp(s, n) by {
      assert 1 in s.jobs && s.jobs[1].orderNo == n && MayGiveUp(s.jobs[1]);
    }
    FailureOverwritesExactlyWhen(OneDelivered(n, order), n);
  }

  lemma {:induction false} DispatchTwice(n: OrderNo, order: Order)
    requires order.notifyStatus == NotifyPending && order.retryCount == 0
    ensures
      var s := Step(Step(Step(Initial, Environment(map[n := order])), Dispatch(0, n, true)), Dispatch(1, n, true));
      s.rows == map[n := order] && s.jobs == map[0 := Job(n, true, LookingUp, 0, 0), 1 := Job(n, true, LookingUp, 0, 0)]
  {
  }

  lemma {:induction false} SendFirst(s: State, n: OrderNo)
    requires 0 in s.jobs && s.jobs[0] == Job(n, true, LookingUp, 0, 0)
    ensures
      var s' := Step(Step(Step(s, LookupApp(0, true)), Marshal(0, true)), Send(0, true));
      s'.rows == s.rows && s'.jobs == s.jobs[0 := Job(n, true, Logging(0, true), 0, 0)]
  {
  }

  lemma {:induction false} MarkFirst(s: State, n: OrderNo)
    requires 0 in s.jobs && s.jobs[0] == Job(n, true, Logging(0, true), 0, 0) && n in s.rows
    ensures
      var s' := Step(Step(Step(s, SaveLog(0, true)), Bump(0, true)), Mark(0, true));
      && n in s'.rows && s'.rows[n].notifyStatus == Notified
      && s'.jobs == s.jobs[0 := Job(n, true, Returning(Delivered(1)), 1, 0)]
  {
  }
}
