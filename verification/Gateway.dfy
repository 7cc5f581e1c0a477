/** The request handlers as they run alone: each changes the tables exactly as its own
    actions do in the interleaved system, and says what the caller is told. */
module Gateway {
  import opened Prelude
  import opened Orders
  import opened Lifecycle
  import opened Webhooks

  function RefundActions(t: ProcId, n: OrderNo, asked: int, reply: RefundReply, recorded: Written, marked: Written)
    : seq<Action>
  {
    [RefundStart(t, n, asked), RefundCall(t, reply), RefundRecord(t, recorded), RefundMark(t, marked)]
  }

  function WebhookActions(t: ProcId, n: OrderNo, report: Report, at: int, written: Written): seq<Action> {
    [HookStart(t, n, report), HookUpdate(t, at, written), HookNotify(t)]
  }

  lemma {:induction false} RunFour(s: Sys, a: Action, b: Action, c: Action, d: Action)
    ensures Run(s, [a, b, c, d]) == Step(Step(Step(Step(s, a), b), c), d)
  {
    RunThree(s, a, b, c);
    assert [a, b, c, d][..3] == [a, b, c];
  }

  /** CreateOrder goes on to ask the channel for a payment. */
  predicate Chargeable(orders: Table, req: CreateRequest, app: Lookup, healthy: bool) {
    req.amount > 0 && app == Found && healthy && !RequestTaken(orders, req)
  }

  /** Refund goes on to call the provider. */
  predicate Refundable(orders: Table, n: OrderNo, asked: int) {
    n in orders && orders[n].status == Paid && (asked <= 0 || asked <= orders[n].amount)
  }

  /** The update takes effect. */
  predicate Applied(orders: Table, n: OrderNo, report: Report, written: Written) {
    written != Failed && report != ReportsOther && n in orders && Accepts(orders[n].status, ReportedStatus(report))
  }

  /** And the handler is told: an order already refunded needs no commit. */
  predicate Told(orders: Table, n: OrderNo, written: Written) {
    written == Acknowledged || (n in orders && orders[n].status == Refunded)
  }

  lemma {:induction false} DuplicateKeyNamesNoColumn()
    ensures !NamesBothColumns("duplicate key")
  {
    forall i | 0 <= i <= |"duplicate key"| - |"app_id"|
      ensures !OccursAt("duplicate key", "app_id", i)
    {
      assert "duplicate key"[i..i + 6][0] == "duplicate key"[i];
      assert "duplicate key"[i..i + 6][1] == "duplicate key"[i + 1];
    }
  }

  class Gateway {
    var orders: Table
    var txns: seq<Transaction>
    /** Commits of payments, calls to providers and notifications started, in order. */
    var trace: seq<Event>
    ghost var procs: map<ProcId, Proc>

    ghost function View(): Sys
      reads this
    {
      Sys(orders, txns, procs, trace)
    }

    constructor ()
      ensures View() == Initial
    {
      orders, txns, trace, procs := map[], [], [], map[];
    }

    /** The transaction that locks the row; `paidAmount` is received and never looked at. A lost
        acknowledgement is one of the COMMIT. */
    method UpdateOrderStatus(n: OrderNo, to: Status, paidAt: Option<int>, paidAmount: int, written: Written)
      returns (err: Option<UpdateError>)
      modifies this`orders
      ensures written == Failed ==> orders == old(orders) && err == Some(DatabaseError)
      ensures orders == if written != Failed && n in old(orders)
                           && (old(orders)[n].status == Pending || (old(orders)[n].status == Paid && to == Refunded))
                        then old(orders)[n := old(orders)[n].(status := to, paidAt := paidAt)] else old(orders)
      ensures written != Failed ==> orders == UpdateStatus(old(orders), n, to, paidAt).0
      ensures written != Failed ==>
        err == if written == AckLost && n in old(orders)
                  && (old(orders)[n].status == Pending || (old(orders)[n].status == Paid && to == Refunded))
               then Some(DatabaseError) else UpdateStatus(old(orders), n, to, paidAt).1
    {
      if written == Failed {
        return Some(DatabaseError);
      }
      if n !in orders {
        return Some(OrderNotFound);
      }
      var current := orders[n].status;
      if current == Paid {
        if to != Refunded {
          return Some(OrderPaid);
        }
      }
      if current == Refunded {
        if to == Refunded {
          return None;
        }
        return Some(OrderPaid);
      }
      if current == Closed {
        return Some(OrderClosed);
      }
      orders := orders[n := orders[n].(status := to, paidAt := paidAt)];
      return if written == AckLost then Some(DatabaseError) else None;
    }

    /** saveOrder: the row is inserted unless an index forbids it; `numberFirst` says which
        index the database reports when both would be broken. */
    method SaveOrder(n: OrderNo, order: Order, written: Written, numberFirst: bool) returns (reply: InsertReply)
      modifies this`orders
      ensures reply == OtherFault <==> written == Failed
      ensures reply == Inserts || reply == InsertsUntold <==>
              written != Failed && n !in old(orders) && !PairTaken(old(orders), order.appId, order.outTradeNo)
      ensures reply == Inserts ==> written == Acknowledged
      ensures reply == InsertsUntold ==> written == AckLost
      ensures orders == if reply == Inserts || reply == InsertsUntold then old(orders)[n := order] else old(orders)
      ensures reply.ReportsViolation? ==> reply.err.code == "23505"
      ensures reply.ReportsViolation? ==> IsInsertViolation(old(orders), n, order.appId, order.outTradeNo, reply.err)
    {
      if written == Failed {
        return OtherFault;
      }
      var pair := PairTaken(orders, order.appId, order.outTradeNo);
      if n in orders && (numberFirst || !pair) {
        DuplicateKeyNamesNoColumn();
        return ReportsViolation(PqError(UNIQUE_VIOLATION, "idx_orders_order_no", "duplicate key"));
      }
      if pair {
        return ReportsViolation(PqError(UNIQUE_VIOLATION, "uk_orders_app_out_trade_no", "duplicate key"));
      }
      orders := orders[n := order];
      return if written == AckLost then InsertsUntold else Inserts;
    }

    method CreateOrder(ghost t: ProcId, req: CreateRequest, app: Lookup, healthy: bool, n: OrderNo,
                       channel: ChannelReply, at: int, written: Written, numberFirst: bool)
      returns (r: CreateResult, ghost insert: InsertReply)
      requires t !in procs
      modifies this
      ensures View() == Run(old(View()),
                [CreateCheck(t, req, app, healthy), CreateCharge(t, n, channel), CreateInsert(t, at, insert)])
      ensures t in procs && procs[t] == CreateEnded(req, r)
      ensures r == CreateRejected(InvalidAmount) <==> req.amount <= 0
      ensures r == CreateRejected(AppNotFound) <==> req.amount > 0 && app == Missing
      ensures r == CreateRejected(OrderExists) <==>
              req.amount > 0 && app == Found && healthy
              && exists m :: m in old(orders) && old(orders)[m].appId == req.appId
                               && old(orders)[m].outTradeNo == req.outTradeNo
      ensures r == CreateRejected(NoProvider) <==>
              Chargeable(old(orders), req, app, healthy) && channel == ChannelMissing
      ensures r == CreateRejected(PaymentFailed) <==>
              Chargeable(old(orders), req, app, healthy) && channel == ChannelRejects
      ensures r.Created? <==> Chargeable(old(orders), req, app, healthy) && channel == ChannelAccepts
                              && n !in old(orders) && written == Acknowledged
      ensures r.Created? ==> r.orderNo == n
      ensures orders == if Chargeable(old(orders), req, app, healthy) && channel == ChannelAccepts
                           && n !in old(orders) && written != Failed
                        then old(orders)[n := Order(req.appId, req.outTradeNo, req.channel, req.amount,
                                                    Pending, NotifyPending, 0, None, at)]
                        else old(orders)
      ensures trace == old(trace) && txns == old(txns)
    {
      ghost var s0 := View();
      ghost var check := CreateCheck(t, req, app, healthy);
      ghost var charge := CreateCharge(t, n, channel);
      insert := OtherFault;
      r := CreateRejected(StoreFailed);
      if req.amount <= 0 {
        r := CreateRejected(InvalidAmount);
      } else if app == Missing {
        r := CreateRejected(AppNotFound);
      } else if app == Faulted || !healthy {
        r := CreateRejected(StoreFailed);
      } else if RequestTaken(orders, req) {
        r := CreateRejected(OrderExists);
      } else if channel == ChannelMissing {
        r := CreateRejected(NoProvider);
      } else if channel == ChannelRejects {
        r := CreateRejected(PaymentFailed);
      } else {
        var reply := SaveOrder(n, NewOrder(req, at), written, numberFirst);
        insert := reply;
        match reply {
          case Inserts => r := Created(n);
          case InsertsUntold => r := CreateRejected(StoreFailed);
          case ReportsViolation(err) =>
            r := CreateRejected(if IsUniqueOrderViolation(err) then OrderExists else StoreFailed);
          case OtherFault => r := CreateRejected(StoreFailed);
        }
      }
      procs := procs[t := CreateEnded(req, r)];
      RunThree(s0, check, charge, CreateInsert(t, at, insert));
      CreateEnds(s0, t, req, app, healthy, n, channel, at, insert, r, View());
    }

    method Refund(ghost t: ProcId, n: OrderNo, asked: int, reply: RefundReply, recorded: Written, marked: Written)
      returns (r: RefundResult)
      requires t !in procs
      modifies this
      ensures View() == Run(old(View()), RefundActions(t, n, asked, reply, recorded, marked))
      ensures t in procs && procs[t] == RefundEnded(n, r)
      ensures r == RefundRejected(RefundOrderNotFound) <==> n !in old(orders)
      ensures r == RefundRejected(NotPaid) <==> n in old(orders) && old(orders)[n].status != Paid
      ensures r == RefundRejected(RefundTooLarge) <==>
              n in old(orders) && old(orders)[n].status == Paid && asked > 0 && asked > old(orders)[n].amount
      ensures r == RefundRejected(NoRefundProvider) <==> Refundable(old(orders), n, asked) && reply == NoSuchProvider
      ensures r == RefundRejected(ProviderFailed) <==> Refundable(old(orders), n, asked) && reply == ProviderRejects
      ensures r == RefundRejected(RecordFailed) <==>
              Refundable(old(orders), n, asked) && reply.ProviderAccepts? && recorded != Acknowledged
      ensures r == RefundRejected(MarkFailed) <==>
              Refundable(old(orders), n, asked) && reply.ProviderAccepts? && recorded == Acknowledged
              && reply.status == RefundSuccess && marked != Acknowledged
      ensures r.RefundReplied? ==> r.status == reply.status
      ensures n in old(orders) && old(orders)[n].status == Paid && reply != NoSuchProvider ==>
        && (0 < asked <= old(orders)[n].amount ==> trace == old(trace) + [RefundSent(n, asked)])
        && (asked <= 0 ==> trace == old(trace) + [RefundSent(n, old(orders)[n].amount)])
      ensures !Refundable(old(orders), n, asked) || reply == NoSuchProvider ==> trace == old(trace)
      ensures orders == if Refundable(old(orders), n, asked) && reply.ProviderAccepts? && recorded == Acknowledged
                           && reply.status == RefundSuccess && marked != Failed
                        then old(orders)[n := old(orders)[n].(status := Refunded)] else old(orders)
      ensures txns == old(txns) + if Refundable(old(orders), n, asked) && reply.ProviderAccepts? && recorded != Failed
                                  then [Transaction(n, reply.amount, reply.status)] else []
    {
      hide Step, Run;
      RunFour(View(), RefundStart(t, n, asked), RefundCall(t, reply), RefundRecord(t, recorded), RefundMark(t, marked));
      var rejected, amount := CheckRefund(t, n, asked);
      if rejected.Some? {
        r := RefundRejected(rejected.value);
        EndedRefundStays(View(), t, reply, recorded, marked);
        return;
      }
      r := CallProvider(t, n, amount, reply, recorded, marked);
    }

    /** The checks on the order and the amount to ask for. */
    method CheckRefund(ghost t: ProcId, n: OrderNo, asked: int) returns (rejected: Option<RefundError>, amount: int)
      requires t !in procs
      modifies this`procs
      ensures View() == Step(old(View()), RefundStart(t, n, asked))
      ensures t in procs && procs[t] == if rejected == None then RefundOpen(n, amount)
                                        else RefundEnded(n, RefundRejected(rejected.value))
      ensures rejected == Some(RefundOrderNotFound) <==> n !in orders
      ensures rejected == Some(NotPaid) <==> n in orders && orders[n].status != Paid
      ensures rejected == Some(RefundTooLarge) <==>
              n in orders && orders[n].status == Paid && asked > 0 && asked > orders[n].amount
      ensures rejected == None <==> Refundable(orders, n, asked)
      ensures rejected == None ==> amount == if asked <= 0 then orders[n].amount else asked
    {
      hide Step;
      FirstRefundStep(View(), t, n, asked);
      amount, rejected := asked, None;
      if n !in orders {
        rejected := Some(RefundOrderNotFound);
      } else if orders[n].status != Paid {
        rejected := Some(NotPaid);
      } else {
        if amount <= 0 {
          amount := orders[n].amount;
        }
        if amount > orders[n].amount {
          rejected := Some(RefundTooLarge);
        }
      }
      procs := procs[t := if rejected == None then RefundOpen(n, amount)
                          else RefundEnded(n, RefundRejected(rejected.value))];
    }

    /** From the provider's answer on. */
    method CallProvider(ghost t: ProcId, n: OrderNo, amount: int, reply: RefundReply,
                        recorded: Written, marked: Written)
      returns (r: RefundResult)
      requires t in procs && procs[t] == RefundOpen(n, amount)
      modifies this
      ensures View() == Step(Step(Step(old(View()), RefundCall(t, reply)), RefundRecord(t, recorded)),
                             RefundMark(t, marked))
      ensures t in procs && procs[t] == RefundEnded(n, r)
      ensures trace == old(trace) + if reply != NoSuchProvider then [RefundSent(n, amount)] else []
      ensures r == RefundRejected(NoRefundProvider) <==> reply == NoSuchProvider
      ensures r == RefundRejected(ProviderFailed) <==> reply == ProviderRejects
      ensures r == RefundRejected(RecordFailed) <==> reply.ProviderAccepts? && recorded != Acknowledged
      ensures r == RefundRejected(MarkFailed) <==>
              reply.ProviderAccepts? && recorded == Acknowledged
              && reply.status == RefundSuccess && marked != Acknowledged
      ensures r.RefundReplied? <==> reply.ProviderAccepts? && recorded == Acknowledged
                                    && (reply.status == RefundSuccess ==> marked == Acknowledged)
      ensures r.RefundReplied? ==> r.status == reply.status
      ensures orders == if reply.ProviderAccepts? && recorded == Acknowledged && reply.status == RefundSuccess
                           && marked != Failed && n in old(orders)
                        then old(orders)[n := old(orders)[n].(status := Refunded)] else old(orders)
      ensures txns == old(txns) + if reply.ProviderAccepts? && recorded != Failed
                                  then [Transaction(n, reply.amount, reply.status)] else []
    {
      ghost var s1 := Step(View(), RefundCall(t, reply));
      match reply {
        case NoSuchProvider =>
          r := RefundRejected(NoRefundProvider);
          procs := procs[t := RefundEnded(n, r)];
        case ProviderRejects =>
          trace := trace + [RefundSent(n, amount)];
          r := RefundRejected(ProviderFailed);
          procs := procs[t := RefundEnded(n, r)];
        case ProviderAccepts(status, replied) =>
          trace := trace + [RefundSent(n, amount)];
          procs := procs[t := RefundAnswered(n, replied, status)];
      }
      assert View() == s1;
      hide Step;
      if reply.ProviderAccepts? {
        r := FinishRefund(t, n, reply.status, reply.amount, recorded, marked);
      } else {
        EndedRefundStays(View(), t, reply, recorded, marked);
      }
    }

    /** saveRefundTransaction, then updateRefundStatus. */
    method FinishRefund(ghost t: ProcId, n: OrderNo, status: RefundStatus, amount: int,
                        recorded: Written, marked: Written)
      returns (r: RefundResult)
      requires t in procs && procs[t] == RefundAnswered(n, amount, status)
      modifies this
      ensures View() == Step(Step(old(View()), RefundRecord(t, recorded)), RefundMark(t, marked))
      ensures t in procs && procs[t] == RefundEnded(n, r)
      ensures trace == old(trace)
      ensures r == if recorded != Acknowledged then RefundRejected(RecordFailed)
                   else if status == RefundSuccess && marked != Acknowledged then RefundRejected(MarkFailed)
                   else RefundReplied(status)
      ensures orders == if recorded == Acknowledged && status == RefundSuccess && marked != Failed && n in old(orders)
                        then old(orders)[n := old(orders)[n].(status := Refunded)] else old(orders)
      ensures txns == old(txns) + if recorded != Failed then [Transaction(n, amount, status)] else []
    {
      ghost var s0 := View();
      if recorded != Failed {
        txns := txns + [Transaction(n, amount, status)];
      }
      if recorded != Acknowledged {
        r := RefundRejected(RecordFailed);
        procs := procs[t := RefundEnded(n, r)];
        assert View() == Step(s0, RefundRecord(t, recorded));
        return;
      }
      procs := procs[t := RefundRecorded(n, status)];
      assert View() == Step(s0, RefundRecord(t, recorded));
      if status == RefundSuccess {
        if n in orders && marked != Failed {
          orders := orders[n := orders[n].(status := Refunded)];
        }
        if marked != Acknowledged {
          r := RefundRejected(MarkFailed);
          procs := procs[t := RefundEnded(n, r)];
          return;
        }
      }
      r := RefundReplied(status);
      procs := procs[t := RefundEnded(n, r)];
    }

    /** The part of a webhook handler after verification: update, and only if told of it, notify. */
    method HandleWebhook(t: ProcId, n: OrderNo, report: Report, at: int, paidAmount: int, written: Written)
      requires t !in procs && n in orders
      modifies this
      ensures View() == Run(old(View()), WebhookActions(t, n, report, at, written))
      ensures t in procs && procs[t] == HookEnded(n)
      ensures
        var row := old(orders)[n];
        var accepted := written != Failed && ((row.status == Pending && report != ReportsOther)
                                              || (row.status in {Paid, Refunded} && report == ReportsRefund));
        var told := written == Acknowledged || row.status == Refunded;
        && orders == (if !accepted || row.status == Refunded then old(orders)
                      else old(orders)[n := row.(status := if report == ReportsPaid then Paid else Refunded,
                                                 paidAt := Some(at))])
        && trace == old(trace) + if !accepted then []
                                 else if report == ReportsPaid
                                 then if told then [PaidCommitted(n, Some(t)), PaymentNotified(n, t)]
                                      else [PaidCommitted(n, None)]
                                 else if told then [RefundCommitted(n, Some(t)), RefundNotified(n, t)]
                                 else [RefundCommitted(n, None)]
    {
      hide Step, Run, UpdateStatus;
      RunThree(View(), HookStart(t, n, report), HookUpdate(t, at, written), HookNotify(t));
      FirstHookStep(View(), t, n, report);
      procs := procs[t := HookVerified(n, report)];
      var updated := ApplyReport(t, n, report, at, paidAmount, written);
      StartNotification(t, n, report, updated);
    }

    /** The update a report asks for; the handler goes on only if it was accepted and said so. */
    method ApplyReport(t: ProcId, n: OrderNo, report: Report, at: int, paidAmount: int, written: Written)
      returns (updated: bool)
      requires t in procs && procs[t] == HookVerified(n, report)
      modifies this
      ensures View() == Step(old(View()), HookUpdate(t, at, written))
      ensures t in procs && procs[t] == if updated then HookCommitted(n, report) else HookEnded(n)
      ensures updated <==> Applied(old(orders), n, report, written) && Told(old(orders), n, written)
      ensures orders == if Applied(old(orders), n, report, written) && old(orders)[n].status != Refunded
                        then old(orders)[n := old(orders)[n].(
                                                status := if report == ReportsPaid then Paid else Refunded,
                                                paidAt := Some(at))]
                        else old(orders)
      ensures trace == old(trace) + if !Applied(old(orders), n, report, written) then []
                                    else if report == ReportsPaid
                                    then [PaidCommitted(n, if updated then Some(t) else None)]
                                    else [RefundCommitted(n, if updated then Some(t) else None)]
    {
      hide Step, StepHookUpdate, UpdateStatus;
      HookUpdateStep(View(), t, at, written);
      HookUpdateMeans(View(), t, n, report, at, written);
      var applied := Applied(orders, n, report, written);
      updated := false;
      if report == ReportsPaid {
        var err := UpdateOrderStatus(n, Paid, Some(at), paidAmount, written);
        updated := err == None;
      }
      if report == ReportsRefund {
        var err := UpdateOrderStatus(n, Refunded, Some(at), paidAmount, written);
        updated := err == None;
      }
      procs := procs[t := if updated then HookCommitted(n, report) else HookEnded(n)];
      if applied {
        var origin := if updated then Some(t) else None;
        trace := trace + [if report == ReportsPaid then PaidCommitted(n, origin) else RefundCommitted(n, origin)];
      }
    }

    method StartNotification(t: ProcId, n: OrderNo, report: Report, updated: bool)
      requires t in procs && procs[t] == if updated then HookCommitted(n, report) else HookEnded(n)
      modifies this
      ensures View() == Step(old(View()), HookNotify(t))
      ensures t in procs && procs[t] == HookEnded(n)
      ensures orders == old(orders)
      ensures trace == old(trace) + if !updated then [] else if report == ReportsPaid
                                    then [PaymentNotified(n, t)] else [RefundNotified(n, t)]
    {
      if updated {
        trace := trace + [if report == ReportsPaid then PaymentNotified(n, t) else RefundNotified(n, t)];
        procs := procs[t := HookEnded(n)];
      }
    }
  }

  lemma {:induction false} FirstRefundStep(s: Sys, t: ProcId, n: OrderNo, asked: int)
    requires t !in s.procs
    ensures Step(s, RefundStart(t, n, asked)) == s.(procs := s.procs[t := AfterRefundStart(s.orders, n, asked)])
  {
  }

  lemma {:induction false} FirstHookStep(s: Sys, t: ProcId, n: OrderNo, report: Report)
    requires t !in s.procs && n in s.orders
    ensures Step(s, HookStart(t, n, report)) == s.(procs := s.procs[t := HookVerified(n, report)])
  {
  }

  lemma {:induction false} HookUpdateStep(s: Sys, t: ProcId, at: int, written: Written)
    requires t in s.procs && s.procs[t].HookVerified?
    ensures Step(s, HookUpdate(t, at, written))
            == StepHookUpdate(s, t, s.procs[t].orderNo, s.procs[t].report, at, written)
  {
  }

  /** What the update of a webhook does to each part of the state. */
  lemma {:induction false} HookUpdateMeans(s: Sys, t: ProcId, n: OrderNo, report: Report, at: int, written: Written)
    ensures
      var applied, told := Applied(s.orders, n, report, written), Told(s.orders, n, written);
      StepHookUpdate(s, t, n, report, at, written) == Sys(
        if applied && s.orders[n].status != Refunded
        then s.orders[n := s.orders[n].(status := if report == ReportsPaid then Paid else Refunded, paidAt := Some(at))]
        else s.orders,
        s.txns,
        s.procs[t := if applied && told then HookCommitted(n, report) else HookEnded(n)],
        s.trace + if !applied then []
                  else if report == ReportsPaid then [PaidCommitted(n, if told then Some(t) else None)]
                  else [RefundCommitted(n, if told then Some(t) else None)])
  {
  }

  /** A refund that has ended has no further steps. */
  lemma {:induction false} EndedRefundStays(s: Sys, t: ProcId, reply: RefundReply, recorded: Written, marked: Written)
    requires t in s.procs && s.procs[t].RefundEnded?
    ensures Step(s, RefundCall(t, reply)) == Step(s, RefundRecord(t, recorded)) == Step(s, RefundMark(t, marked)) == s
  {
  }

  /** The three actions of a CreateOrder that runs alone, taken together. */
  lemma {:induction false} CreateEnds(s: Sys, t: ProcId, req: CreateRequest, app: Lookup, healthy: bool, n: OrderNo,
                   channel: ChannelReply, at: int, insert: InsertReply, r: CreateResult, after: Sys)
    requires t !in s.procs
    requires
      var stopped := AfterCheck(s.orders, req, app, healthy);
      var charged := AfterCharge(req, n, channel);
      && after == s.(orders := after.orders, procs := s.procs[t := CreateEnded(req, r)])
      && if stopped.CreateEnded? then stopped.created == r && after.orders == s.orders
         else if charged.CreateEnded? then charged.created == r && after.orders == s.orders
         else match insert
              case Inserts => r == Created(n) && n !in s.orders && !RequestTaken(s.orders, req)
                              && after.orders == s.orders[n := NewOrder(req, at)]
              case InsertsUntold => r == CreateRejected(StoreFailed) && n !in s.orders && !RequestTaken(s.orders, req)
                                    && after.orders == s.orders[n := NewOrder(req, at)]
              case ReportsViolation(err) => IsInsertViolation(s.orders, n, req.appId, req.outTradeNo, err)
                  && after.orders == s.orders
                              && r == CreateRejected(if IsUniqueOrderViolation(err) then OrderExists else StoreFailed)
              case OtherFault => r == CreateRejected(StoreFailed) && after.orders == s.orders
    ensures after == Step(Step(Step(s, CreateCheck(t, req, app, healthy)), CreateCharge(t, n, channel)),
        CreateInsert(t, at, insert))
  {
    var s1 := Step(s, CreateCheck(t, req, app, healthy));
    var s2 := Step(s1, CreateCharge(t, n, channel));
    assert s1 == s.(procs := s.procs[t := AfterCheck(s.orders, req, app, healthy)]);
    assert s2.orders == s.orders && s2.procs.Keys == s.procs.Keys + {t};
    assert after.procs == s2.procs[t := CreateEnded(req, r)];
  }
}
