/** The request handlers and the notification service over one `orders` table. Handlers change
    rows and dispatch notifications; deliveries, sweeps and resets change the notification columns. */
module Composition {
  import opened Prelude
  import opened Orders
  import L = Lifecycle
  import N = Notify
  import W = Webhooks

  datatype Whole = Whole(sys: L.Sys, notify: N.State)

  /** A handler's action, which dispatches to delivery `j` if it starts a notification; or an action of
      the notification service on its own. */
  datatype Move =
    | Handler(a: L.Action, j: N.JobId, healthy: bool)
    | Notifier(b: N.Action)

  ghost function Step(w: Whole, m: Move): Whole {
    match m
    case Handler(a, j, healthy) =>
      var sys := L.Step(w.sys, a);
      var seen := N.Step(w.notify, N.Environment(sys.orders));
      if a.HookNotify? && |sys.trace| > |w.sys.trace| then
        if j in w.notify.jobs then w
        else Whole(sys, N.Step(seen, N.Dispatch(j, sys.trace[|w.sys.trace|].orderNo, healthy)))
      else Whole(sys, seen)
    case Notifier(b) =>
      if b.Environment? || b.Dispatch? then w
      else Whole(w.sys.(orders := N.Step(w.notify, b).rows), N.Step(w.notify, b))
  }

  const Initial := Whole(L.Initial, N.Initial)

  ghost function Run(w: Whole, moves: seq<Move>): Whole {
    if moves == [] then w
    else Step(Run(w, moves[..|moves| - 1]), moves[|moves| - 1])
  }

  predicate MarkSucceeds(m: Move) {
    m.Notifier? ==> N.MarkSucceeds(m.b)
  }

  /** What either side relies on, over the shared rows. */
  ghost predicate Sound(w: Whole) {
    && w.sys.orders == w.notify.rows
    && L.Safe(w.sys)
    && (forall n :: L.HookCounts(w.sys, n) && W.RefundCounts(w.sys, n))
    && N.PoolBalanced(w.notify)
  }

  /** The notification service never touches a status or the identity of an order. */
  predicate OnlyNotificationColumns(before: Table, after: Table) {
    && before.Keys == after.Keys
    && forall n :: n in before ==> before[n].status == after[n].status && SameIdentity(before[n], after[n])
  }

  lemma {:induction false} NotifierKeepsStatuses(s: N.State, b: N.Action)
    requires !b.Environment?
    ensures OnlyNotificationColumns(s.rows, N.Step(s, b).rows)
  {
    hide N.NextJob, N.IsSweep, RowsAdvance;
  }

  lemma {:induction false} SafeIgnoresNotificationColumns(s: L.Sys, orders: Table)
    requires L.Safe(s) && OnlyNotificationColumns(s.orders, orders)
    ensures L.Safe(s.(orders := orders))
  {
    var s' := s.(orders := orders);
    assert L.RefundsSafe(s');
    forall t | t in s'.procs
      ensures L.AmountFits(s'.orders, s'.procs[t])
    {
      assert L.AmountFits(s.orders, s.procs[t]);
    }
    forall n, m | n in s'.orders && m in s'.orders && SamePair(s'.orders[n], s'.orders[m])
      ensures n == m
    {
      assert SamePair(s.orders[n], s.orders[m]);
    }
  }

  lemma {:induction false} CountsIgnoreNotificationColumns(s: L.Sys, orders: Table, n: OrderNo)
    requires L.HookCounts(s, n) && W.RefundCounts(s, n) && OnlyNotificationColumns(s.orders, orders)
    ensures L.HookCounts(s.(orders := orders), n) && W.RefundCounts(s.(orders := orders), n)
  {
    var s' := s.(orders := orders);
    assert forall t :: L.Awaiting(s', t, n) <==> L.Awaiting(s, t, n);
    assert W.RefundsAwaiting(s', n) == W.RefundsAwaiting(s, n);
  }

  lemma {:induction false} HandlerKeepsSound(w: Whole, m: Move)
    requires Sound(w) && m.Handler?
    ensures Sound(Step(w, m))
  {
    var sys := L.Step(w.sys, m.a);
    L.StepAdvancesRows(w.sys, m.a);
    L.StepKeepsRefundsSafe(w.sys, m.a);
    L.StepKeepsAmounts(w.sys, m.a);
    L.StepKeepsPairs(w.sys, m.a);
    forall n
      ensures L.HookCounts(sys, n) && W.RefundCounts(sys, n)
    {
      L.StepKeepsHookCounts(w.sys, m.a, n);
      W.StepKeepsRefundCounts(w.sys, m.a, n);
    }
    var env := N.Environment(sys.orders);
    var seen := N.Step(w.notify, env);
    N.StepKeepsPool(w.notify, env);
    if m.a.HookNotify? && |sys.trace| > |w.sys.trace| {
      var dispatch := N.Dispatch(m.j, sys.trace[|w.sys.trace|].orderNo, m.healthy);
      N.StepKeepsPool(seen, dispatch);
      DispatchKeepsRows(seen, m.j, sys.trace[|w.sys.trace|].orderNo, m.healthy);
    }
  }

  lemma {:induction false} DispatchKeepsRows(s: N.State, j: N.JobId, n: OrderNo, healthy: bool)
    ensures N.Step(s, N.Dispatch(j, n, healthy)).rows == s.rows
  {
  }

  lemma {:induction false} NotifierKeepsSound(w: Whole, m: Move)
    requires Sound(w) && m.Notifier?
    ensures Sound(Step(w, m))
  {
    if !m.b.Environment? && !m.b.Dispatch? {
      var notify := N.Step(w.notify, m.b);
      N.StepKeepsPool(w.notify, m.b);
      NotifierKeepsStatuses(w.notify, m.b);
      SafeIgnoresNotificationColumns(w.sys, notify.rows);
      forall n
        ensures L.HookCounts(w.sys.(orders := notify.rows), n) && W.RefundCounts(w.sys.(orders := notify.rows), n)
      {
        CountsIgnoreNotificationColumns(w.sys, notify.rows, n);
      }
    }
  }

  lemma {:induction false} MoveKeepsSound(w: Whole, m: Move)
    requires Sound(w)
    ensures Sound(Step(w, m))
  {
    if m.Handler? {
      HandlerKeepsSound(w, m);
    } else {
      NotifierKeepsSound(w, m);
    }
  }

  lemma {:induction false} MoveStrandsNothing(w: Whole, m: Move)
    requires Sound(w) && N.NothingStranded(w.notify) && MarkSucceeds(m)
    ensures N.NothingStranded(Step(w, m).notify)
  {
    hide N.NothingStranded, L.Step, N.Step;
    match m
    case Handler(a, j, healthy) =>
      var sys := L.Step(w.sys, a);
      var env := N.Environment(sys.orders);
      N.StepKeepsNothingStranded(w.notify, env);
      if a.HookNotify? && |sys.trace| > |w.sys.trace| {
        N.StepKeepsNothingStranded(N.Step(w.notify, env), N.Dispatch(j, sys.trace[|w.sys.trace|].orderNo, healthy));
      }
    case Notifier(b) => N.StepKeepsNothingStranded(w.notify, b);
  }

  /** Everything proved of the two halves apart holds of them together, in every run: refunds stay safe,
      payments are notified once, refund notifications are counted, and the pool balances; and if the final
      status writes succeed, no pending order loses its delivery. */
  lemma {:induction false} WholeStaysSound(moves: seq<Move>)
    ensures Sound(Run(Initial, moves))
    ensures (forall i :: 0 <= i < |moves| ==> MarkSucceeds(moves[i])) ==> N.NothingStranded(Run(Initial, moves).notify)
  {
    hide Step;
    if moves == [] {
      NothingYet();
    } else {
      var init, last := moves[..|moves| - 1], moves[|moves| - 1];
      WholeStaysSound(init);
      MoveKeepsSound(Run(Initial, init), last);
      if forall i :: 0 <= i < |moves| ==> MarkSucceeds(moves[i]) {
        MoveStrandsNothing(Run(Initial, init), last);
      }
    }
  }

  lemma {:induction false} NothingYet()
    ensures Sound(Initial) && N.NothingStranded(Initial.notify)
  {
    N.PoolAlwaysBalanced([]);
    forall n
      ensures L.HookCounts(L.Initial, n) && W.RefundCounts(L.Initial, n)
    {
      L.OnePaymentNotification([], n);
      W.RefundNotificationsCounted([], n);
    }
  }

  /** A webhook about to notify has its order in the table. */
  lemma {:induction false} CommittedOrderExists(s: L.Sys, t: L.ProcId)
    requires forall n :: L.HookCounts(s, n) && W.RefundCounts(s, n)
    requires t in s.procs && s.procs[t].HookCommitted?
    ensures s.procs[t].orderNo in s.orders
  {
    var n := s.procs[t].orderNo;
    if s.procs[t].report == L.ReportsPaid {
      assert L.HookCounts(s, n) && L.Awaiting(s, t, n);
    } else {
      assert W.RefundCounts(s, n) && t in W.RefundsAwaiting(s, n);
    }
  }

  /** The notification a webhook starts is a delivery of the order it has committed, or one deferral log of
      it when the pool is full. The table of orders stays as it is. */
  lemma {:induction false} NotificationDispatched(w: Whole, m: Move)
    requires Sound(w) && m.Handler? && m.a.HookNotify? && m.j !in w.notify.jobs
    requires m.a.t in w.sys.procs && w.sys.procs[m.a.t].HookCommitted?
    ensures
      var n, after := w.sys.procs[m.a.t].orderNo, Step(w, m);
      && after.sys.orders == w.sys.orders
      && (w.notify.slots < 100 ==>
            && after.notify.slots == w.notify.slots + 1 && after.notify.logs == w.notify.logs
            && after.notify.jobs == w.notify.jobs[m.j := N.Job(n, true, N.LookingUp, 0, 0)])
      && (w.notify.slots >= 100 ==>
            && after.notify.slots == w.notify.slots && after.notify.jobs == w.notify.jobs
            && after.notify.logs == w.notify.logs + if m.healthy then [N.NotifyLog(n, None, false)] else [])
  {
    CommittedOrderExists(w.sys, m.a.t);
    var sys := L.Step(w.sys, m.a);
    assert sys.trace[|w.sys.trace|].orderNo == w.sys.procs[m.a.t].orderNo;
    SeenUnchanged(w.notify);
    hide Sound;
  }

  lemma {:induction false} SeenUnchanged(s: N.State)
    ensures N.Step(s, N.Environment(s.rows)) == s
  {
  }

  lemma {:induction false} StepMovesForward(w: Whole, m: Move, n: OrderNo)
    requires Sound(w) && n in w.sys.orders
    ensures n in Step(w, m).sys.orders && Forward(w.sys.orders[n].status, Step(w, m).sys.orders[n].status)
  {
    match m
    case Handler(a, _, _) => L.StepAdvancesRows(w.sys, a);
    case Notifier(b) => if !b.Environment? { NotifierKeepsStatuses(w.notify, b); }
  }

  lemma {:induction false} WholeMovesForward(w: Whole, moves: seq<Move>, n: OrderNo)
    requires Sound(w) && n in w.sys.orders
    ensures Sound(Run(w, moves)) && n in Run(w, moves).sys.orders
    ensures Forward(w.sys.orders[n].status, Run(w, moves).sys.orders[n].status)
  {
    hide Step, Sound;
    if moves != [] {
      var init, last := moves[..|moves| - 1], moves[|moves| - 1];
      WholeMovesForward(w, init, n);
      StepMovesForward(Run(w, init), last, n);
      MoveKeepsSound(Run(w, init), last);
    }
  }

  /** Once an order is refunded no later sweep lists it, so a refund notification that was deferred
      because the pool was full is not made up for by the scheduler. */
  lemma {:induction false} RefundedOrdersAreNeverSwept(w: Whole, moves: seq<Move>, n: OrderNo, limit: nat,
                                                       found: seq<OrderNo>)
    requires Sound(w) && n in w.sys.orders && w.sys.orders[n].status == Refunded
    requires N.IsSweep(Run(w, moves).notify.rows, limit, found)
    ensures n !in found
  {
    WholeMovesForward(w, moves, n);
  }
}
