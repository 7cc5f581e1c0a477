/** Webhooks: the statuses the request handlers can bring an order to, and how often refunds are notified. */
module Webhooks {
  import opened Prelude
  import opened Orders
  import opened Lifecycle

  // ----- a webhook that runs without interruption -----

  function Hook(t: ProcId, n: OrderNo, report: Report): seq<Action> {
    [HookStart(t, n, report), HookUpdate(t, 0, Acknowledged), HookNotify(t)]
  }

  function Notice(t: ProcId, n: OrderNo, report: Report): Event {
    if report == ReportsPaid then PaymentNotified(n, t) else RefundNotified(n, t)
  }

  lemma {:induction false} HookSteps(s: Sys, t: ProcId, n: OrderNo, report: Report)
    requires n in s.orders && t !in s.procs
    requires report != ReportsOther && Accepts(s.orders[n].status, ReportedStatus(report))
    ensures Run(s, Hook(t, n, report)) == Sys(
              UpdateStatus(s.orders, n, ReportedStatus(report), Some(0)).0, s.txns, s.procs[t := HookEnded(n)],
              s.trace + Committed(n, ReportedStatus(report), Some(t)) + [Notice(t, n, report)])
  {
    var rows := UpdateStatus(s.orders, n, ReportedStatus(report), Some(0)).0;
    var s1 := s.(procs := s.procs[t := HookVerified(n, report)]);
    var s2 := Sys(rows, s.txns, s.procs[t := HookCommitted(n, report)],
                  s.trace + Committed(n, ReportedStatus(report), Some(t)));
    assert Step(s, HookStart(t, n, report)) == s1;
    assert Step(s1, HookUpdate(t, 0, Acknowledged)) == s2 by {
      assert s1.procs[t := HookCommitted(n, report)] == s2.procs;
    }
    assert s2.procs[t := HookEnded(n)] == s.procs[t := HookEnded(n)];
    RunThree(s, HookStart(t, n, report), HookUpdate(t, 0, Acknowledged), HookNotify(t));
  }

  lemma {:induction false} FreshId(ids: set<ProcId>) returns (t: ProcId)
    ensures forall u :: u in ids ==> u < t
  {
    t := 0;
    if ids != {} {
      var u :| u in ids;
      t := FreshId(ids - {u});
      t := if u < t then t else u + 1;
      assert forall v :: v in ids ==> v == u || v in ids - {u};
    }
  }

  // ----- which statuses an order can reach -----

  ghost predicate Reaches(s: Sys, actions: seq<Action>, n: OrderNo, to: Status) {
    n in Run(s, actions).orders && Run(s, actions).orders[n].status == to
  }

  /** The run is made of request handlers: nothing else calls UpdateOrderStatus. */
  ghost predicate ByHandlers(actions: seq<Action>) {
    forall i :: 0 <= i < |actions| ==> !actions[i].DirectUpdate?
  }

  lemma {:induction false} HandlersNeverClose(s: Sys, actions: seq<Action>, n: OrderNo)
    requires Safe(s) && n in s.orders && s.orders[n].status != Closed && ByHandlers(actions)
    ensures n in Run(s, actions).orders && Run(s, actions).orders[n].status != Closed
  {
    hide Step, UpdateStatus;
    if actions != [] {
      var init, last := actions[..|actions| - 1], actions[|actions| - 1];
      HandlersNeverClose(s, init, n);
      RunKeepsSafe(s, init);
      StepAdvancesRows(Run(s, init), last);
      StepOrders(Run(s, init), last);
    }
  }

  lemma {:induction false} HandlersReach(s: Sys, n: OrderNo, to: Status) returns (actions: seq<Action>)
    requires n in s.orders && Forward(s.orders[n].status, to) && (to == Closed ==> s.orders[n].status == Closed)
    ensures ByHandlers(actions) && Reaches(s, actions, n, to)
  {
    actions := [];
    if to != s.orders[n].status {
      var t := FreshId(s.procs.Keys);
      var report := if to == Paid then ReportsPaid else ReportsRefund;
      HookSteps(s, t, n, report);
      actions := Hook(t, n, report);
    }
  }

  /** The request handlers can bring an order forward to paid and to refunded and never close it; an
      order that is closed stays closed. A caller of UpdateOrderStatus free to name any status could
      bring an order to exactly the forward ones. */
  lemma {:induction false} StatusReachableExactlyForward(s: Sys, n: OrderNo, to: Status)
    requires Safe(s) && n in s.orders
    ensures (exists actions :: ByHandlers(actions) && Reaches(s, actions, n, to)) <==>
            Forward(s.orders[n].status, to) && (to == Closed ==> s.orders[n].status == Closed)
    ensures (exists actions :: Reaches(s, actions, n, to)) <==> Forward(s.orders[n].status, to)
  {
    forall actions | Reaches(s, actions, n, to)
      ensures Forward(s.orders[n].status, to)
      ensures ByHandlers(actions) && to == Closed ==> s.orders[n].status == Closed
    {
      RunAdvancesRows(s, actions);
      if ByHandlers(actions) && s.orders[n].status != Closed {
        HandlersNeverClose(s, actions, n);
      }
    }
    if Forward(s.orders[n].status, to) {
      if to == Closed && s.orders[n].status != Closed {
        RunOne(s, DirectUpdate(n, to, None));
        assert Reaches(s, [DirectUpdate(n, to, None)], n, to);
      } else {
        var actions := HandlersReach(s, n, to);
        assert ByHandlers(actions) && Reaches(s, actions, n, to);
      }
    }
  }

  // ----- refund notifications -----

  ghost function RefundsAwaiting(s: Sys, n: OrderNo): set<ProcId> {
    set t | t in s.procs && AwaitingRefund(s, t, n)
  }

  /** Every refund update a webhook got accepted is notified, or its webhook is about to; and a webhook
      about to notify a refund finds the order refunded. */
  ghost predicate RefundCounts(s: Sys, n: OrderNo) {
    && Count(s.trace, RefundNotifications, n) + |RefundsAwaiting(s, n)| == Count(s.trace, HookRefunds, n)
    && (RefundsAwaiting(s, n) != {} ==> n in s.orders && s.orders[n].status == Refunded)
  }

  lemma {:induction false} RefundsAwaitingStep(s: Sys, a: Action, n: OrderNo)
    ensures
      var s' := Step(s, a);
      if |s'.trace| > |s.trace| && Matches(s'.trace[|s.trace|], HookRefunds, n)
      then var t := s'.trace[|s.trace|].origin.value;
           t !in RefundsAwaiting(s, n) && RefundsAwaiting(s', n) == RefundsAwaiting(s, n) + {t}
      else if |s'.trace| > |s.trace| && Matches(s'.trace[|s.trace|], RefundNotifications, n)
      then var t := s'.trace[|s.trace|].hook;
           t in RefundsAwaiting(s, n) && RefundsAwaiting(s', n) == RefundsAwaiting(s, n) - {t}
      else RefundsAwaiting(s', n) == RefundsAwaiting(s, n)
  {
    hide Step;
    var s' := Step(s, a);
    forall t | AwaitingRefund(s, t, n) != AwaitingRefund(s', t, n)
      ensures |s'.trace| > |s.trace|
      ensures s'.trace[|s.trace|] ==
              if AwaitingRefund(s, t, n) then RefundNotified(n, t) else RefundCommitted(n, Some(t))
    {
      AwaitingRefundStep(s, a, t, n);
    }
    if |s'.trace| > |s.trace| {
      StepEvent(s, a);
    }
  }

  lemma {:induction false} StepKeepsRefundCounts(s: Sys, a: Action, n: OrderNo)
    requires RefundsSafe(s) && RefundCounts(s, n)
    ensures RefundCounts(Step(s, a), n)
  {
    hide Step, Count;
    CountStep(s, a, RefundNotifications, n);
    CountStep(s, a, HookRefunds, n);
    RefundsAwaitingStep(s, a, n);
    StepAdvancesRows(s, a);
    if |Step(s, a).trace| > |s.trace| {
      StepEvent(s, a);
    }
  }

  /** In every run, the notifications of refunds of an order, and those about to start, are exactly as
      many as the refund updates of webhooks that were accepted. */
  lemma {:induction false} RefundNotificationsCounted(actions: seq<Action>, n: OrderNo)
    ensures RefundCounts(Run(Initial, actions), n)
  {
    hide Step;
    if actions == [] {
      assert RefundsAwaiting(Initial, n) == {};
    } else {
      var init, last := actions[..|actions| - 1], actions[|actions| - 1];
      RefundNotificationsCounted(init, n);
      RunKeepsSafe(Initial, init);
      StepKeepsRefundCounts(Run(Initial, init), last, n);
    }
  }

  // ----- refund webhooks repeat -----

  function RefundHooks(first: ProcId, n: OrderNo, k: nat): seq<Action> {
    if k == 0 then [] else RefundHooks(first, n, k - 1) + Hook(first + k - 1, n, ReportsRefund)
  }

  lemma {:induction false} RefundHookNotifies(s: Sys, t: ProcId, n: OrderNo)
    requires n in s.orders && s.orders[n].status != Closed && t !in s.procs
    ensures
      var s' := Run(s, Hook(t, n, ReportsRefund));
      && Count(s'.trace, RefundNotifications, n) == Count(s.trace, RefundNotifications, n) + 1
      && n in s'.orders && s'.orders[n].status == Refunded
      && s'.procs.Keys == s.procs.Keys + {t}
  {
    HookSteps(s, t, n, ReportsRefund);
    hide Run, Hook;
    var committed := s.trace + [RefundCommitted(n, Some(t))];
    var after := committed + [RefundNotified(n, t)];
    assert after[..|after| - 1] == committed && committed[..|committed| - 1] == s.trace;
  }

  ghost predicate NotifiedTimes(s: Sys, s': Sys, n: OrderNo, first: ProcId, k: nat)
    requires n in s.orders
  {
    && Count(s'.trace, RefundNotifications, n) == Count(s.trace, RefundNotifications, n) + k
    && n in s'.orders && s'.orders[n].status == (if k == 0 then s.orders[n].status else Refunded)
    && (forall t :: t in s'.procs ==> t < first + k)
  }

  /** A refund webhook on a refunded order is accepted again: k deliveries of it start k notifications. */
  lemma {:induction false} RefundNotificationsRepeat(s: Sys, n: OrderNo, first: ProcId, k: nat)
    requires n in s.orders && s.orders[n].status != Closed
    requires forall t :: t in s.procs ==> t < first
    ensures NotifiedTimes(s, Run(s, RefundHooks(first, n, k)), n, first, k)
  {
    hide Step, Count, Hook;
    if k == 0 {
      assert Run(s, RefundHooks(first, n, 0)) == s;
    } else {
      RefundNotificationsRepeat(s, n, first, k - 1);
      RunAppend(s, RefundHooks(first, n, k - 1), Hook(first + k - 1, n, ReportsRefund));
      OneMoreNotification(s, Run(s, RefundHooks(first, n, k - 1)), n, first, k);
    }
  }

  lemma {:induction false} OneMoreNotification(s: Sys, before: Sys, n: OrderNo, first: ProcId, k: nat)
    requires n in s.orders && s.orders[n].status != Closed
    requires k > 0 && NotifiedTimes(s, before, n, first, k - 1)
    ensures NotifiedTimes(s, Run(before, Hook(first + k - 1, n, ReportsRefund)), n, first, k)
  {
    hide Step, Run, Count, Hook;
    var t := first + k - 1;
    RefundHookNotifies(before, t, n);
    assert forall u :: u in Run(before, Hook(t, n, ReportsRefund)).procs ==> u in before.procs || u == t;
  }

  lemma {:induction false} ClosedIsSilent(s: Sys, actions: seq<Action>, n: OrderNo)
    requires Safe(s) && RefundCounts(s, n) && n in s.orders && s.orders[n].status == Closed
    ensures
      var s' := Run(s, actions);
      && Safe(s') && RefundCounts(s', n) && n in s'.orders && s'.orders[n].status == Closed
      && Count(s'.trace, RefundNotifications, n) == Count(s.trace, RefundNotifications, n)
  {
    hide Step, Count;
    if actions != [] {
      var init, last := actions[..|actions| - 1], actions[|actions| - 1];
      ClosedIsSilent(s, init, n);
      RunKeepsSafe(s, actions);
      var mid := Run(s, init);
      StepAdvancesRows(mid, last);
      StepKeepsRefundCounts(mid, last, n);
      CountStep(mid, last, RefundNotifications, n);
      RefundsAwaitingStep(mid, last, n);
    }
  }

  ghost predicate NotifiesMore(s: Sys, actions: seq<Action>, n: OrderNo, k: nat) {
    Count(Run(s, actions).trace, RefundNotifications, n) >= Count(s.trace, RefundNotifications, n) + k
  }

  /** From any reachable state, k further refund notifications of an existing order can be started
      exactly when the order is not closed, however many it has had. */
  lemma {:induction false} RefundNotifiedAgainExactlyWhen(prefix: seq<Action>, n: OrderNo, k: nat)
    requires n in Run(Initial, prefix).orders && k > 0
    ensures
      var s := Run(Initial, prefix);
      (exists actions :: NotifiesMore(s, actions, n, k)) <==> s.orders[n].status != Closed
  {
    hide Step, Count;
    var s := Run(Initial, prefix);
    RunKeepsSafe(Initial, prefix);
    RefundNotificationsCounted(prefix, n);
    if s.orders[n].status != Closed {
      var first := FreshId(s.procs.Keys);
      RefundNotificationsRepeat(s, n, first, k);
      assert NotifiesMore(s, RefundHooks(first, n, k), n, k);
    } else {
      forall actions
        ensures !NotifiesMore(s, actions, n, k)
      {
        ClosedIsSilent(s, actions, n);
      }
    }
  }
}
