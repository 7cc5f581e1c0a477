/** The rows of the `orders` and `transactions` tables and the statements that change them.
    Each function is one statement, or one transaction holding the row lock. */
module Orders {
  import opened Prelude

  type OrderNo = string

  datatype Status = Pending | Paid | Closed | Refunded

  datatype NotifyStatus = NotifyPending | Notified | FailedNotify

  datatype Order = Order(
    appId: string,
    outTradeNo: string,
    channel: string,
    amount: int,
    status: Status,
    notifyStatus: NotifyStatus,
    retryCount: int,
    paidAt: Option<int>,
    createdAt: int)

  type Table = map<OrderNo, Order>

  /** The moves a status may make over an order's life: closed and refunded are final. */
  predicate Forward(from: Status, to: Status) {
    from == to || from == Pending || (from == Paid && to == Refunded)
  }

  /** The identity of an order, fixed when its row is inserted. */
  predicate SameIdentity(a: Order, b: Order) {
    a.appId == b.appId && a.outTradeNo == b.outTradeNo && a.channel == b.channel && a.amount == b.amount
    && a.createdAt == b.createdAt
  }

  predicate SamePair(a: Order, b: Order) {
    HasPair(a, b.appId, b.outTradeNo)
  }

  predicate HasPair(order: Order, appId: string, outTradeNo: string) {
    order.appId == appId && order.outTradeNo == outTradeNo
  }

  /** A step only adds rows, with notification still to do, and moves the status of existing rows
      forward; the notification columns of existing rows are not its own. */
  ghost predicate RowsAdvance(before: Table, after: Table) {
    && (forall n :: n in before ==>
          && n in after
          && Forward(before[n].status, after[n].status)
          && SameIdentity(before[n], after[n])
          && after[n].notifyStatus == before[n].notifyStatus
          && after[n].retryCount == before[n].retryCount)
    && (forall n :: n in after && n !in before ==> after[n].notifyStatus == NotifyPending && after[n].retryCount == 0)
  }

  // ----- UpdateOrderStatus -----

  datatype UpdateError = OrderNotFound | OrderPaid | OrderClosed | DatabaseError

  /** The locked transaction accepts a move from pending to anything, and to refunded from paid or refunded. */
  predicate Accepts(current: Status, to: Status) {
    current == Pending || (to == Refunded && current != Closed)
  }

  /** UpdateOrderStatus as one atomic step; a result of None is Go's nil error. An accepted update of an
      order not yet refunded overwrites paid_at, so a refund puts its own time in place of the payment's. */
  function UpdateStatus(rows: Table, n: OrderNo, to: Status, paidAt: Option<int>): (r: (Table, Option<UpdateError>))
    ensures r.1 == None <==> n in rows && (rows[n].status == Pending || (to == Refunded && rows[n].status != Closed))
    ensures r.1 != None ==> r.0 == rows
    ensures r.0.Keys == rows.Keys
    ensures forall m :: m in rows ==> Forward(rows[m].status, r.0[m].status) && SameIdentity(rows[m], r.0[m])
    ensures forall m :: m in rows && m != n ==> r.0[m] == rows[m]
    ensures r.1 == None ==> r.0[n] == if rows[n].status == Refunded then rows[n]
                                      else rows[n].(status := to, paidAt := paidAt)
    ensures r.1 == Some(OrderNotFound) <==> n !in rows
    ensures r.1 == Some(OrderClosed) <==> n in rows && rows[n].status == Closed
    ensures r.1 == Some(OrderPaid) <==> n in rows && rows[n].status in {Paid, Refunded} && to != Refunded
  {
    if n !in rows then (rows, Some(OrderNotFound))
    else match rows[n].status
      case Pending => (rows[n := rows[n].(status := to, paidAt := paidAt)], None)
      case Paid =>
        if to == Refunded then (rows[n := rows[n].(status := to, paidAt := paidAt)], None)
        else (rows, Some(OrderPaid))
      case Refunded => (rows, if to == Refunded then None else Some(OrderPaid))
      case Closed => (rows, Some(OrderClosed))
  }

  // ----- saveOrder and its unique indexes -----

  datatype PqError = PqError(code: string, constraint: string, message: string)

  const UNIQUE_VIOLATION := "23505"

  const PAIR_INDEXES: set<string> := {"uk_orders_app_out_trade_no", "idx_orders_app_out_trade_no"}

  const NUMBER_INDEXES: set<string> := {"orders_order_no_key", "idx_orders_order_no"}

  predicate IsUniqueOrderViolation(err: PqError) {
    && err.code == UNIQUE_VIOLATION
    && (|| err.constraint == "uk_orders_app_out_trade_no"
        || err.constraint == "idx_orders_app_out_trade_no"
        || (Contains(err.message, "app_id") && Contains(err.message, "out_trade_no")))
  }

  /** The text of an error on an index of the pair whose name the code does not know. */
  predicate NamesBothColumns(message: string) {
    Contains(message, "app_id") && Contains(message, "out_trade_no")
  }

  predicate PairTaken(rows: Table, appId: string, outTradeNo: string) {
    exists m :: m in rows && HasPair(rows[m], appId, outTradeNo)
  }

  /** An error the database may report for inserting an order of the pair under number `n`:
      it tells of one of the unique indexes that the new row would break. */
  ghost predicate IsInsertViolation(rows: Table, n: OrderNo, appId: string, outTradeNo: string, err: PqError) {
    && err.code == "23505"
    && (|| ((err.constraint in PAIR_INDEXES || NamesBothColumns(err.message)) && PairTaken(rows, appId, outTradeNo))
        || (err.constraint in NUMBER_INDEXES && !NamesBothColumns(err.message) && n in rows))
  }

  // ----- transactions -----

  datatype RefundStatus = RefundPending | RefundSuccess | RefundFailed | RefundProcessing

  /** A row of the `transactions` table; only refunds are ever inserted. */
  datatype Transaction = Transaction(orderNo: OrderNo, amount: int, status: RefundStatus)

  /** updateRefundStatus: an unguarded write, made only for a successful refund. */
  function MarkRefunded(rows: Table, n: OrderNo, status: RefundStatus): Table {
    if status != RefundSuccess || n !in rows then rows
    else rows[n := rows[n].(status := Refunded)]
  }
}
