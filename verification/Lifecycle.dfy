/** Concurrent requests over the `orders` table. CreateOrder, Refund and the webhook handlers are
    split at every point where another request may run; an action is one such piece.
    A disabled action leaves the state as it is, so every action sequence is a run. */
module Lifecycle {
  import opened Prelude
  import opened Orders

  type ProcId = nat

  datatype CreateRequest = CreateRequest(appId: string, outTradeNo: string, channel: string, amount: int)

  datatype CreateError = InvalidAmount | AppNotFound | OrderExists | NoProvider | PaymentFailed | StoreFailed

  datatype CreateResult = Created(orderNo: OrderNo) | CreateRejected(error: CreateError)

  datatype RefundError =
    | RefundOrderNotFound | NotPaid | RefundTooLarge | NoRefundProvider | ProviderFailed | RecordFailed | MarkFailed

  datatype RefundResult = RefundReplied(status: RefundStatus) | RefundRejected(error: RefundError)

  /** What a verified webhook says about the order. */
  datatype Report = ReportsPaid | ReportsRefund | ReportsOther

  /** Where a request stands between two of its atomic pieces. */
  datatype Proc =
    | CreateChecked(req: CreateRequest)
    | CreateCharged(req: CreateRequest, orderNo: OrderNo)
    | CreateEnded(req: CreateRequest, created: CreateResult)
    | RefundOpen(orderNo: OrderNo, amount: int)
    | RefundAnswered(orderNo: OrderNo, amount: int, status: RefundStatus)
    | RefundRecorded(orderNo: OrderNo, status: RefundStatus)
    | RefundEnded(orderNo: OrderNo, refunded: RefundResult)
    | HookVerified(orderNo: OrderNo, report: Report)
    | HookCommitted(orderNo: OrderNo, report: Report)
    | HookEnded(orderNo: OrderNo)

  /** What the outside world can see, in order. `origin` is the webhook that was told of its commit: None
      for another caller, or if the acknowledgement was lost. */
  datatype Event =
    | PaidCommitted(orderNo: OrderNo, origin: Option<ProcId>)
    | RefundCommitted(orderNo: OrderNo, origin: Option<ProcId>)
    | PaymentNotified(orderNo: OrderNo, hook: ProcId)
    | RefundNotified(orderNo: OrderNo, hook: ProcId)
    | RefundSent(orderNo: OrderNo, amount: int)

  datatype Sys = Sys(orders: Table, txns: seq<Transaction>, procs: map<ProcId, Proc>, trace: seq<Event>)

  const Initial := Sys(map[], [], map[], [])

  datatype Lookup = Found | Missing | Faulted

  datatype ChannelReply = ChannelMissing | ChannelRejects | ChannelAccepts

  datatype InsertReply = Inserts | InsertsUntold | ReportsViolation(err: PqError) | OtherFault

  datatype RefundReply = NoSuchProvider | ProviderRejects | ProviderAccepts(status: RefundStatus, amount: int)

  /** One atomic piece, with the answers of the outside world it depends on. DirectUpdate is a call of
      UpdateOrderStatus by anyone else, with any status. */
  datatype Action =
    | CreateCheck(t: ProcId, req: CreateRequest, app: Lookup, healthy: bool)
    | CreateCharge(t: ProcId, n: OrderNo, channel: ChannelReply)
    | CreateInsert(t: ProcId, at: int, insert: InsertReply)
    | RefundStart(t: ProcId, n: OrderNo, asked: int)
    | RefundCall(t: ProcId, refund: RefundReply)
    | RefundRecord(t: ProcId, written: Written)
    | RefundMark(t: ProcId, written: Written)
    | HookStart(t: ProcId, n: OrderNo, report: Report)
    | HookUpdate(t: ProcId, at: int, written: Written)
    | HookNotify(t: ProcId)
    | DirectUpdate(n: OrderNo, to: Status, paidAt: Option<int>)

  function NewOrder(req: CreateRequest, at: int): Order {
    Order(req.appId, req.outTradeNo, req.channel, req.amount, Pending, NotifyPending, 0, None, at)
  }

  predicate RequestTaken(orders: Table, req: CreateRequest) {
    PairTaken(orders, req.appId, req.outTradeNo)
  }

  ghost function AfterCheck(orders: Table, req: CreateRequest, app: Lookup, healthy: bool): Proc {
    if req.amount <= 0 then CreateEnded(req, CreateRejected(InvalidAmount))
    else if app == Missing then CreateEnded(req, CreateRejected(AppNotFound))
    else if app == Faulted || !healthy then CreateEnded(req, CreateRejected(StoreFailed))
    else if RequestTaken(orders, req) then CreateEnded(req, CreateRejected(OrderExists))
    else CreateChecked(req)
  }

  function AfterCharge(req: CreateRequest, n: OrderNo, channel: ChannelReply): Proc {
    match channel
    case ChannelMissing => CreateEnded(req, CreateRejected(NoProvider))
    case ChannelRejects => CreateEnded(req, CreateRejected(PaymentFailed))
    case ChannelAccepts => CreateCharged(req, n)
  }

  ghost function StepInsert(s: Sys, t: ProcId, req: CreateRequest, n: OrderNo, at: int, insert: InsertReply): Sys {
    match insert
    case Inserts =>
      if n in s.orders || RequestTaken(s.orders, req) then s
      else s.(orders := s.orders[n := NewOrder(req, at)], procs := s.procs[t := CreateEnded(req, Created(n))])
    case InsertsUntold =>
      if n in s.orders || RequestTaken(s.orders, req) then s
      else s.(orders := s.orders[n := NewOrder(req, at)],
              procs := s.procs[t := CreateEnded(req, CreateRejected(StoreFailed))])
    case ReportsViolation(err) =>
      if !IsInsertViolation(s.orders, n, req.appId, req.outTradeNo, err) then s
      else s.(procs := s.procs[t := CreateEnded(req, CreateRejected(
                if IsUniqueOrderViolation(err) then OrderExists else StoreFailed))])
    case OtherFault => s.(procs := s.procs[t := CreateEnded(req, CreateRejected(StoreFailed))])
  }

  /** The amount Refund asks the provider for: the whole order unless a positive amount was given. */
  function RefundAmount(order: Order, asked: int): int {
    if asked <= 0 then order.amount else asked
  }

  function AfterRefundStart(orders: Table, n: OrderNo, asked: int): Proc {
    if n !in orders then RefundEnded(n, RefundRejected(RefundOrderNotFound))
    else if orders[n].status != Paid then RefundEnded(n, RefundRejected(NotPaid))
    else if RefundAmount(orders[n], asked) > orders[n].amount then RefundEnded(n, RefundRejected(RefundTooLarge))
    else RefundOpen(n, RefundAmount(orders[n], asked))
  }

  function StepRefundCall(s: Sys, t: ProcId, n: OrderNo, amount: int, refund: RefundReply): Sys {
    match refund
    case NoSuchProvider => s.(procs := s.procs[t := RefundEnded(n, RefundRejected(NoRefundProvider))])
    case ProviderRejects =>
      s.(procs := s.procs[t := RefundEnded(n, RefundRejected(ProviderFailed))],
          trace := s.trace + [RefundSent(n, amount)])
    case ProviderAccepts(status, replied) =>
      s.(procs := s.procs[t := RefundAnswered(n, replied, status)], trace := s.trace + [RefundSent(n, amount)])
  }

  function ReportedStatus(report: Report): Status {
    if report == ReportsPaid then Paid else Refunded
  }

  /** What an accepted update shows. */
  function Committed(n: OrderNo, to: Status, origin: Option<ProcId>): seq<Event> {
    if to == Paid then [PaidCommitted(n, origin)] else if to == Refunded then [RefundCommitted(n, origin)] else []
  }

  /** The webhook goes on only if it is told of its commit. An order already refunded needs no commit. */
  function StepHookUpdate(s: Sys, t: ProcId, n: OrderNo, report: Report, at: int, written: Written): Sys {
    if report == ReportsOther || written == Failed then s.(procs := s.procs[t := HookEnded(n)])
    else
      var (orders, err) := UpdateStatus(s.orders, n, ReportedStatus(report), Some(at));
      if err != None then s.(procs := s.procs[t := HookEnded(n)])
      else if written == AckLost && s.orders[n].status != Refunded
      then s.(orders := orders,
              procs := s.procs[t := HookEnded(n)],
              trace := s.trace + Committed(n, ReportedStatus(report), None))
      else s.(orders := orders,
              procs := s.procs[t := HookCommitted(n, report)],
              trace := s.trace + Committed(n, ReportedStatus(report), Some(t)))
  }

  ghost function Step(s: Sys, a: Action): Sys {
    match a
    case CreateCheck(t, req, app, healthy) =>
      if t in s.procs then s else s.(procs := s.procs[t := AfterCheck(s.orders, req, app, healthy)])
    case CreateCharge(t, n, channel) =>
      if t !in s.procs || !s.procs[t].CreateChecked? then s
      else s.(procs := s.procs[t := AfterCharge(s.procs[t].req, n, channel)])
    case CreateInsert(t, at, insert) =>
      if t !in s.procs || !s.procs[t].CreateCharged? then s
      else StepInsert(s, t, s.procs[t].req, s.procs[t].orderNo, at, insert)
    case RefundStart(t, n, asked) =>
      if t in s.procs then s else s.(procs := s.procs[t := AfterRefundStart(s.orders, n, asked)])
    case RefundCall(t, refund) =>
      if t !in s.procs || !s.procs[t].RefundOpen? then s
      else StepRefundCall(s, t, s.procs[t].orderNo, s.procs[t].amount, refund)
    case RefundRecord(t, written) =>
      if t !in s.procs || !s.procs[t].RefundAnswered? then s
      else
        var p := s.procs[t];
        s.(txns := s.txns + if written == Failed then [] else [Transaction(p.orderNo, p.amount, p.status)],
           procs := s.procs[t := if written == Acknowledged then RefundRecorded(p.orderNo, p.status)
                                 else RefundEnded(p.orderNo, RefundRejected(RecordFailed))])
    case RefundMark(t, written) =>
      if t !in s.procs || !s.procs[t].RefundRecorded? then s
      else
        var p := s.procs[t];
        s.(orders := if written == Failed then s.orders else MarkRefunded(s.orders, p.orderNo, p.status),
           procs := s.procs[t := RefundEnded(p.orderNo, if written != Acknowledged && p.status == RefundSuccess
                                                        then RefundRejected(MarkFailed) else RefundReplied(p.status))])
    case HookStart(t, n, report) =>
      if t in s.procs || n !in s.orders then s else s.(procs := s.procs[t := HookVerified(n, report)])
    case HookUpdate(t, at, written) =>
      if t !in s.procs || !s.procs[t].HookVerified? then s
      else StepHookUpdate(s, t, s.procs[t].orderNo, s.procs[t].report, at, written)
    case HookNotify(t) =>
      if t !in s.procs || !s.procs[t].HookCommitted? then s
      else
        var n := s.procs[t].orderNo;
        s.(procs := s.procs[t := HookEnded(n)],
           trace := s.trace
               + [if s.procs[t].report == ReportsPaid then PaymentNotified(n, t) else RefundNotified(n, t)])
    case DirectUpdate(n, to, paidAt) =>
      var (orders, err) := UpdateStatus(s.orders, n, to, paidAt);
      s.(orders := orders, trace := s.trace + if err == None then Committed(n, to, None) else [])
  }

  ghost function Run(s: Sys, actions: seq<Action>): Sys {
    if actions == [] then s
    else Step(Run(s, actions[..|actions| - 1]), actions[|actions| - 1])
  }

  lemma {:induction false} RunOne(s: Sys, a: Action)
    ensures Run(s, [a]) == Step(s, a)
  {
    assert [a][..0] == [];
  }

  lemma {:induction false} RunThree(s: Sys, a: Action, b: Action, c: Action)
    ensures Run(s, [a, b, c]) == Step(Step(Step(s, a), b), c)
  {
    assert [a, b, c][..2] == [a, b];
    assert [a, b][..1] == [a];
    RunOne(s, a);
  }

  lemma {:induction false} RunAppend(s: Sys, first: seq<Action>, second: seq<Action>)
    ensures Run(s, first + second) == Run(Run(s, first), second)
  {
    hide Step;
    if second == [] {
      assert first + second == first;
    } else {
      var init := second[..|second| - 1];
      RunAppend(s, first, init);
      assert (first + second)[..|first + second| - 1] == first + init;
    }
  }

  // ----- what every step keeps -----

  /** The refund has read the order as paid and may still write to it. */
  predicate RefundInFlight(p: Proc) {
    p.RefundOpen? || p.RefundAnswered? || p.RefundRecorded?
  }

  /** Every refund in flight sees a row that is paid or refunded. */
  ghost predicate RefundsSafe(s: Sys) {
    forall t :: t in s.procs && RefundInFlight(s.procs[t]) ==>
      var n := s.procs[t].orderNo;
      n in s.orders && (s.orders[n].status == Paid || s.orders[n].status == Refunded)
  }

  /** Where a positive amount on its way to the provider, or into a new row, comes from. */
  predicate AmountFits(orders: Table, p: Proc) {
    && (p.CreateChecked? || p.CreateCharged? ==> p.req.amount > 0)
    && (p.RefundOpen? ==> p.orderNo in orders && 0 < p.amount <= orders[p.orderNo].amount)
  }

  /** Row amounts are positive, so are amounts about to be sent or already sent, and none exceeds its order. */
  ghost predicate AmountsBounded(s: Sys) {
    && (forall n :: n in s.orders ==> s.orders[n].amount > 0)
    && (forall t :: t in s.procs ==> AmountFits(s.orders, s.procs[t]))
    && (forall e :: e in s.trace && e.RefundSent? ==>
          e.orderNo in s.orders && 0 < e.amount <= s.orders[e.orderNo].amount)
  }

  predicate HoldsRequest(order: Order, req: CreateRequest) {
    order.appId == req.appId && order.outTradeNo == req.outTradeNo && order.channel == req.channel
    && order.amount == req.amount
  }

  /** One row per (app_id, out_trade_no), and every successful caller owns the row it was told about. */
  ghost predicate PairsUnique(s: Sys) {
    && (forall n, m :: n in s.orders && m in s.orders && SamePair(s.orders[n], s.orders[m]) ==> n == m)
    && (forall t :: t in s.procs && Succeeded(s.procs[t]) ==>
          var n := s.procs[t].created.orderNo;
          n in s.orders && HoldsRequest(s.orders[n], s.procs[t].req))
    && (forall t, u ::
          (t in s.procs && u in s.procs && Succeeded(s.procs[t]) && Succeeded(s.procs[u])
           && s.procs[t].created == s.procs[u].created) ==> t == u)
  }

  predicate Succeeded(p: Proc) {
    p.CreateEnded? && p.created.Created?
  }

  ghost predicate Safe(s: Sys) {
    RefundsSafe(s) && AmountsBounded(s) && PairsUnique(s)
  }

  /** The ways a step may change the orders table. */
  ghost predicate OrdersStep(s: Sys, a: Action, orders: Table) {
    || orders == s.orders
    || (a.CreateInsert? && a.t in s.procs && s.procs[a.t].CreateCharged?
        && var (n, req) := (s.procs[a.t].orderNo, s.procs[a.t].req);
           n !in s.orders && !RequestTaken(s.orders, req) && orders == s.orders[n := NewOrder(req, a.at)])
    || (a.RefundMark? && a.t in s.procs && RefundInFlight(s.procs[a.t])
        && orders == MarkRefunded(s.orders, s.procs[a.t].orderNo, RefundSuccess))
    || (a.HookUpdate? && a.t in s.procs && s.procs[a.t].HookVerified?
        && orders == UpdateStatus(s.orders, s.procs[a.t].orderNo, ReportedStatus(s.procs[a.t].report), Some(a.at)).0)
    || (a.DirectUpdate? && orders == UpdateStatus(s.orders, a.n, a.to, a.paidAt).0)
  }

  lemma {:induction false} StepOrders(s: Sys, a: Action)
    ensures OrdersStep(s, a, Step(s, a).orders)
  {
    hide UpdateStatus, RequestTaken, NewOrder;
  }

  lemma {:induction false} StepAdvancesRows(s: Sys, a: Action)
    requires RefundsSafe(s)
    ensures RowsAdvance(s.orders, Step(s, a).orders)
  {
    StepOrders(s, a);
    hide Step;
  }

  /** A refund in flight after a step was in flight before it, or has just read a paid row. */
  lemma {:induction false} InFlightOrigin(s: Sys, a: Action, t: ProcId)
    requires t in Step(s, a).procs && RefundInFlight(Step(s, a).procs[t])
    ensures
      var p, s' := Step(s, a).procs[t], Step(s, a);
      || (t in s.procs && RefundInFlight(s.procs[t]) && s.procs[t].orderNo == p.orderNo)
      || (a.RefundStart? && t == a.t && t !in s.procs && s'.orders == s.orders && p.orderNo in s.orders
          && s.orders[p.orderNo].status == Paid && p.orderNo == a.n)
  {
  }

  lemma {:induction false} StepKeepsRefundsSafe(s: Sys, a: Action)
    requires RefundsSafe(s)
    ensures RefundsSafe(Step(s, a))
  {
    StepAdvancesRows(s, a);
    var s' := Step(s, a);
    forall t | t in s'.procs && RefundInFlight(s'.procs[t])
      ensures
        var n := s'.procs[t].orderNo;
        n in s'.orders && (s'.orders[n].status == Paid || s'.orders[n].status == Refunded)
    {
      InFlightOrigin(s, a, t);
    }
  }

  /** An amount newly on its way was checked in the same step. */
  lemma {:induction false} NewAmountFits(s: Sys, a: Action, t: ProcId)
    requires AmountsBounded(s) && t in Step(s, a).procs
    requires t in s.procs ==> Step(s, a).procs[t] != s.procs[t]
    ensures AmountFits(Step(s, a).orders, Step(s, a).procs[t])
  {
    hide UpdateStatus, RequestTaken;
    assert t in s.procs ==> AmountFits(s.orders, s.procs[t]);
  }

  lemma {:induction false} StepKeepsAmountFits(s: Sys, a: Action, t: ProcId)
    requires RefundsSafe(s) && AmountsBounded(s) && t in Step(s, a).procs
    ensures AmountFits(Step(s, a).orders, Step(s, a).procs[t])
  {
    StepAdvancesRows(s, a);
    hide Step;
    if t in s.procs && Step(s, a).procs[t] == s.procs[t] {
      assert AmountFits(s.orders, s.procs[t]);
    } else {
      NewAmountFits(s, a, t);
    }
  }

  lemma {:induction false} StepEvents(s: Sys, a: Action)
    ensures s.trace <= Step(s, a).trace && |Step(s, a).trace| <= |s.trace| + 1
    ensures |Step(s, a).trace| > |s.trace| && Step(s, a).trace[|s.trace|].RefundSent? ==>
              && a.RefundCall? && a.t in s.procs && s.procs[a.t].RefundOpen?
              && Step(s, a).trace[|s.trace|] == RefundSent(s.procs[a.t].orderNo, s.procs[a.t].amount)
  {
  }

  lemma {:induction false} StepKeepsAmounts(s: Sys, a: Action)
    requires RefundsSafe(s) && AmountsBounded(s)
    ensures AmountsBounded(Step(s, a))
  {
    hide Step;
    var s' := Step(s, a);
    StepAdvancesRows(s, a);
    StepEvents(s, a);
    forall t | t in s'.procs
      ensures AmountFits(s'.orders, s'.procs[t])
    {
      StepKeepsAmountFits(s, a, t);
    }
    forall n | n in s'.orders
      ensures s'.orders[n].amount > 0
    {
      if n !in s.orders {
        StepOrders(s, a);
        assert AmountFits(s.orders, s.procs[a.t]);
      }
    }
    forall e | e in s'.trace && e.RefundSent?
      ensures e.orderNo in s'.orders && 0 < e.amount <= s'.orders[e.orderNo].amount
    {
      if e !in s.trace {
        assert s'.trace[|s.trace|] == e;
      }
    }
  }

  /** A caller newly told "created" is the one that inserted the row just now. */
  lemma {:induction false} SuccessOrigin(s: Sys, a: Action, t: ProcId)
    requires t in Step(s, a).procs && Succeeded(Step(s, a).procs[t])
    ensures
      var p, s' := Step(s, a).procs[t], Step(s, a);
      || (t in s.procs && s.procs[t] == p)
      || (a.CreateInsert? && a.t == t && p.created.orderNo !in s.orders
          && s'.orders == s.orders[p.created.orderNo := NewOrder(p.req, a.at)])
  {
  }

  lemma {:induction false} StepKeepsPairs(s: Sys, a: Action)
    requires RefundsSafe(s) && PairsUnique(s)
    ensures PairsUnique(Step(s, a))
  {
    var s' := Step(s, a);
    StepAdvancesRows(s, a);
    forall n, m | n in s'.orders && m in s'.orders && SamePair(s'.orders[n], s'.orders[m])
      ensures n == m
    {
      StepKeepsPair(s, a, n, m);
    }
    forall t | t in s'.procs && Succeeded(s'.procs[t])
      ensures var n := s'.procs[t].created.orderNo;
        n in s'.orders && HoldsRequest(s'.orders[n], s'.procs[t].req)
    {
      SuccessOrigin(s, a, t);
    }
    forall t, u | t in s'.procs && u in s'.procs && Succeeded(s'.procs[t]) && Succeeded(s'.procs[u])
        && s'.procs[t].created == s'.procs[u].created
      ensures t == u
    {
      SuccessOrigin(s, a, t);
      SuccessOrigin(s, a, u);
    }
  }

  lemma {:induction false} StepKeepsPair(s: Sys, a: Action, n: OrderNo, m: OrderNo)
    requires RefundsSafe(s) && PairsUnique(s)
    requires n in Step(s, a).orders && m in Step(s, a).orders
    requires SamePair(Step(s, a).orders[n], Step(s, a).orders[m])
    ensures n == m
  {
    StepAdvancesRows(s, a);
    StepOrders(s, a);
    hide Step, UpdateStatus;
    if n in s.orders && m in s.orders {
      assert SamePair(s.orders[n], s.orders[m]);
    } else if a.CreateInsert? {
      assert Step(s, a).orders.Keys == s.orders.Keys + {s.procs[a.t].orderNo};
      assert !RequestTaken(s.orders, s.procs[a.t].req);
    }
  }

  lemma {:induction false} RunKeepsSafe(s: Sys, actions: seq<Action>)
    requires Safe(s)
    ensures Safe(Run(s, actions))
  {
    if actions != [] {
      var init, last := actions[..|actions| - 1], actions[|actions| - 1];
      RunKeepsSafe(s, init);
      StepKeepsRefundsSafe(Run(s, init), last);
      StepKeepsAmounts(Run(s, init), last);
      StepKeepsPairs(Run(s, init), last);
    }
  }

  lemma {:induction false} RunAdvancesRows(s: Sys, actions: seq<Action>)
    requires Safe(s)
    ensures RowsAdvance(s.orders, Run(s, actions).orders)
  {
    if actions != [] {
      var init, last := actions[..|actions| - 1], actions[|actions| - 1];
      RunAdvancesRows(s, init);
      RunKeepsSafe(s, init);
      StepAdvancesRows(Run(s, init), last);
    }
  }

  // ----- main results on refund amounts and creation -----

  /** In every run, the final unguarded write of a refund finds its row paid or already refunded,
      and whatever the provider was asked for was positive and within the order. */
  lemma {:induction false} RefundsAlwaysSafe(actions: seq<Action>)
    ensures RefundsSafe(Run(Initial, actions)) && AmountsBounded(Run(Initial, actions))
  {
    RunKeepsSafe(Initial, actions);
  }

  predicate SameRequestPair(a: CreateRequest, b: CreateRequest) {
    a.appId == b.appId && a.outTradeNo == b.outTradeNo
  }

  /** However CreateOrder calls interleave, a pair has one row and at most one successful caller. */
  lemma {:induction false} OneOrderPerPair(actions: seq<Action>, n: OrderNo, m: OrderNo, t: ProcId, u: ProcId)
    ensures
      var s := Run(Initial, actions);
      && (n in s.orders && m in s.orders && SamePair(s.orders[n], s.orders[m]) ==> n == m)
      && ((t in s.procs && u in s.procs && Succeeded(s.procs[t]) && Succeeded(s.procs[u])
           && SameRequestPair(s.procs[t].req, s.procs[u].req)) ==> t == u)
  {
    RunKeepsSafe(Initial, actions);
    var s := Run(Initial, actions);
    if t in s.procs && u in s.procs && Succeeded(s.procs[t]) && Succeeded(s.procs[u])
       && SameRequestPair(s.procs[t].req, s.procs[u].req) {
      assert SamePair(s.orders[s.procs[t].created.orderNo], s.orders[s.procs[u].created.orderNo]);
    }
  }

  /** An insert under a fresh number, unless the database fails otherwise, ends with OrderExists
      exactly when the pair is taken and with the new order exactly when it is free. */
  lemma {:induction false} InsertReportsDuplicates(s: Sys, t: ProcId, at: int, insert: InsertReply)
    requires t in s.procs && s.procs[t].CreateCharged? && s.procs[t].orderNo !in s.orders
    requires insert == Inserts || insert.ReportsViolation?
    requires Step(s, CreateInsert(t, at, insert)) != s
    ensures
      var req, s' := s.procs[t].req, Step(s, CreateInsert(t, at, insert));
      && s'.procs[t] == CreateEnded(req,
           if RequestTaken(s.orders, req) then CreateRejected(OrderExists) else Created(s.procs[t].orderNo))
      && (RequestTaken(s.orders, req) ==> s'.orders == s.orders)
  {
    hide Contains;
    assert insert.ReportsViolation? ==> insert.err.constraint in PAIR_INDEXES || NamesBothColumns(insert.err.message);
  }

  // ----- webhooks: one payment notification for one committed payment -----

  datatype Tally = AllPaid | HookPaid | UntoldPaid | Notifications | HookRefunds | RefundNotifications

  predicate Matches(e: Event, k: Tally, n: OrderNo) {
    match k
    case AllPaid => e.PaidCommitted? && e.orderNo == n
    case HookPaid => e.PaidCommitted? && e.orderNo == n && e.origin.Some?
    case UntoldPaid => e.PaidCommitted? && e.orderNo == n && e.origin.None?
    case Notifications => e.PaymentNotified? && e.orderNo == n
    case HookRefunds => e.RefundCommitted? && e.orderNo == n && e.origin.Some?
    case RefundNotifications => e.RefundNotified? && e.orderNo == n
  }

  function Count(trace: seq<Event>, k: Tally, n: OrderNo): nat {
    if trace == [] then 0
    else Count(trace[..|trace| - 1], k, n) + if Matches(trace[|trace| - 1], k, n) then 1 else 0
  }

  lemma {:induction false} CountStep(s: Sys, a: Action, k: Tally, n: OrderNo)
    ensures
      var before, after := s.trace, Step(s, a).trace;
      Count(after, k, n) == Count(before, k, n)
        + if |after| > |before| && Matches(after[|before|], k, n) then 1 else 0
  {
    StepEvents(s, a);
    var before, after := s.trace, Step(s, a).trace;
    if |after| > |before| {
      assert after[..|after| - 1] == before;
    } else {
      assert after == before;
    }
  }

  /** The webhook has committed the payment and has still to start the notification. */
  predicate Awaiting(s: Sys, t: ProcId, n: OrderNo) {
    t in s.procs && s.procs[t] == HookCommitted(n, ReportsPaid)
  }

  ghost predicate HookCounts(s: Sys, n: OrderNo) {
    var all, hooks, notified := Count(s.trace, AllPaid, n), Count(s.trace, HookPaid, n),
        Count(s.trace, Notifications, n);
    && notified <= hooks <= all <= 1
    && (n !in s.orders || s.orders[n].status == Pending ==> all == 0)
    && (n in s.orders && s.orders[n].status == Paid ==> all == 1)
    && (notified < hooks <==> exists t :: Awaiting(s, t, n))
    && (forall t, u :: Awaiting(s, t, n) && Awaiting(s, u, n) ==> t == u)
  }

  /** The same of a refund. */
  predicate AwaitingRefund(s: Sys, t: ProcId, n: OrderNo) {
    t in s.procs && s.procs[t].HookCommitted? && s.procs[t].orderNo == n && s.procs[t].report != ReportsPaid
  }

  /** The event a step adds, if any, and what it says about the acting request. */
  lemma {:induction false} StepEvent(s: Sys, a: Action)
    requires |Step(s, a).trace| > |s.trace|
    ensures
      var e, s' := Step(s, a).trace[|s.trace|], Step(s, a);
      match e
      case PaidCommitted(n, origin) =>
        && n in s.orders && s.orders[n].status == Pending && n in s'.orders && s'.orders[n].status == Paid
        && (origin.Some? ==> !Awaiting(s, origin.value, n)
                             && s'.procs == s.procs[origin.value := HookCommitted(n, ReportsPaid)])
      case PaymentNotified(n, t) => Awaiting(s, t, n) && s'.procs == s.procs[t := HookEnded(n)] && s'.orders == s.orders
      case RefundCommitted(n, origin) =>
        && n in s.orders && s.orders[n].status != Closed && n in s'.orders && s'.orders[n].status == Refunded
        && (origin.Some? ==> !AwaitingRefund(s, origin.value, n)
                             && s'.procs == s.procs[origin.value := HookCommitted(n, ReportsRefund)])
      case RefundNotified(n, t) =>
        AwaitingRefund(s, t, n) && s'.procs == s.procs[t := HookEnded(n)] && s'.orders == s.orders
      case _ => true
  {
    hide RequestTaken, IsInsertViolation, RefundAmount, NewOrder, MarkRefunded;
  }

  /** A request starts or stops awaiting its notification only with the matching event. */
  lemma {:induction false} AwaitingStep(s: Sys, a: Action, t: ProcId, n: OrderNo)
    requires Awaiting(s, t, n) != Awaiting(Step(s, a), t, n)
    ensures |Step(s, a).trace| > |s.trace|
    ensures Step(s, a).trace[|s.trace|] ==
            if Awaiting(s, t, n) then PaymentNotified(n, t) else PaidCommitted(n, Some(t))
  {
    hide UpdateStatus, RequestTaken, IsInsertViolation, RefundAmount, NewOrder, MarkRefunded;
  }

  lemma {:induction false} AwaitingRefundStep(s: Sys, a: Action, t: ProcId, n: OrderNo)
    requires AwaitingRefund(s, t, n) != AwaitingRefund(Step(s, a), t, n)
    ensures |Step(s, a).trace| > |s.trace|
    ensures Step(s, a).trace[|s.trace|] ==
            if AwaitingRefund(s, t, n) then RefundNotified(n, t) else RefundCommitted(n, Some(t))
  {
    hide UpdateStatus, RequestTaken, IsInsertViolation, RefundAmount, NewOrder, MarkRefunded;
  }

  lemma {:induction false} PendingStep(s: Sys, a: Action, n: OrderNo)
    requires RefundsSafe(s)
    requires n !in Step(s, a).orders || Step(s, a).orders[n].status == Pending
    ensures n !in s.orders || s.orders[n].status == Pending
  {
    StepAdvancesRows(s, a);
  }

  /** An order becomes paid only with the event of its committed payment. */
  lemma {:induction false} PaidStep(s: Sys, a: Action, n: OrderNo)
    requires n in Step(s, a).orders && Step(s, a).orders[n].status == Paid
    requires n !in s.orders || s.orders[n].status != Paid
    ensures |Step(s, a).trace| > |s.trace| && Matches(Step(s, a).trace[|s.trace|], AllPaid, n)
  {
    hide RequestTaken, IsInsertViolation, RefundAmount;
  }

  lemma {:induction false} StepKeepsHookCounts(s: Sys, a: Action, n: OrderNo)
    requires RefundsSafe(s) && HookCounts(s, n)
    ensures HookCounts(Step(s, a), n)
  {
    var s' := Step(s, a);
    CountStep(s, a, AllPaid, n);
    CountStep(s, a, HookPaid, n);
    CountStep(s, a, Notifications, n);
    forall t | Awaiting(s, t, n) != Awaiting(s', t, n)
      ensures |s'.trace| > |s.trace|
      ensures s'.trace[|s.trace|] == if Awaiting(s, t, n) then PaymentNotified(n, t) else PaidCommitted(n, Some(t))
    {
      AwaitingStep(s, a, t, n);
    }
    if n !in s'.orders || s'.orders[n].status == Pending {
      PendingStep(s, a, n);
    }
    if n in s'.orders && s'.orders[n].status == Paid && (n !in s.orders || s.orders[n].status != Paid) {
      PaidStep(s, a, n);
    }
    StepEvents(s, a);
    if |s'.trace| > |s.trace| {
      StepEvent(s, a);
      var e := s'.trace[|s.trace|];
      if e.PaidCommitted? && e.orderNo == n && e.origin.Some? {
        assert Awaiting(s', e.origin.value, n);
      } else if e.PaymentNotified? && e.orderNo == n {
        assert Awaiting(s, e.hook, n) && !Awaiting(s', e.hook, n);
      } else {
        assert forall t :: Awaiting(s, t, n) <==> Awaiting(s', t, n);
      }
    } else {
      assert forall t :: Awaiting(s, t, n) <==> Awaiting(s', t, n);
    }
  }

  /** However paid webhooks repeat and race, an order has at most one committed payment and no more
      notifications than commits that a webhook was told of; the two differ only while the committing webhook is between
      its commit and its notification. Holding after every prefix, it puts each notification after its commit. */
  lemma {:induction false} OnePaymentNotification(actions: seq<Action>, n: OrderNo)
    ensures HookCounts(Run(Initial, actions), n)
  {
    if actions != [] {
      var init, last := actions[..|actions| - 1], actions[|actions| - 1];
      OnePaymentNotification(init, n);
      RunKeepsSafe(Initial, init);
      StepKeepsHookCounts(Run(Initial, init), last, n);
    }
  }

  lemma {:induction false} PaidSplit(trace: seq<Event>, n: OrderNo)
    ensures Count(trace, AllPaid, n) == Count(trace, HookPaid, n) + Count(trace, UntoldPaid, n)
    ensures PaidCommitted(n, None) in trace <==> Count(trace, UntoldPaid, n) > 0
  {
    if trace != [] {
      PaidSplit(trace[..|trace| - 1], n);
      assert trace == trace[..|trace| - 1] + [trace[|trace| - 1]];
    }
  }

  /** A payment of whose commit no webhook was told is never notified by a webhook: later webhooks find the
      order paid. Its row keeps its notification to do, for the scheduler. */
  lemma {:induction false} UntoldPaymentNotNotified(actions: seq<Action>, n: OrderNo)
    requires PaidCommitted(n, None) in Run(Initial, actions).trace
    ensures Count(Run(Initial, actions).trace, Notifications, n) == 0
  {
    hide Run, Count;
    OnePaymentNotification(actions, n);
    PaidSplit(Run(Initial, actions).trace, n);
  }

  /** A notification names the webhook whose commit is already in the trace. */
  ghost predicate NotifiesItsCommit(s: Sys, t: ProcId, n: OrderNo) {
    && (Awaiting(s, t, n) || PaymentNotified(n, t) in s.trace ==> PaidCommitted(n, Some(t)) in s.trace)
    && (AwaitingRefund(s, t, n) || RefundNotified(n, t) in s.trace ==> RefundCommitted(n, Some(t)) in s.trace)
  }

  lemma {:induction false} NotificationFollowsItsCommit(actions: seq<Action>, t: ProcId, n: OrderNo)
    ensures NotifiesItsCommit(Run(Initial, actions), t, n)
  {
    hide Step;
    if actions != [] {
      var init, last := actions[..|actions| - 1], actions[|actions| - 1];
      var s := Run(Initial, init);
      NotificationFollowsItsCommit(init, t, n);
      StepEvents(s, last);
      if |Step(s, last).trace| > |s.trace| {
        StepEvent(s, last);
        assert Step(s, last).trace == s.trace + [Step(s, last).trace[|s.trace|]];
      }
      if Awaiting(s, t, n) != Awaiting(Step(s, last), t, n) {
        AwaitingStep(s, last, t, n);
      }
      if AwaitingRefund(s, t, n) != AwaitingRefund(Step(s, last), t, n) {
        AwaitingRefundStep(s, last, t, n);
      }
    }
  }
}
