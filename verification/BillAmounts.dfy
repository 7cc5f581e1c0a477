/** What the one-cent loss of the bill parsers does to a reconciliation. */
module BillAmounts {
  import opened Reconcile
  import opened Amounts

  /** A bill that lists every order at its own amount, printed with two decimals and parsed back. */
  function HonestBill(internal: seq<PaidOrder>): (external: seq<BillRecord>)
    requires forall i :: 0 <= i < |internal| ==> 0 <= internal[i].amount
    ensures |external| == |internal|
  {
    if internal == [] then []
    else
      var order := internal[|internal| - 1];
      HonestBill(internal[..|internal| - 1]) + [BillRecord(order.orderNo, ParseAmount(FormatAmount(order.amount)))]
  }

  /** An honest bill falls short of the orders by at most one cent each, and is never above them. */
  lemma {:induction false} HonestBillTotal(internal: seq<PaidOrder>)
    requires forall i :: 0 <= i < |internal| ==> 0 <= internal[i].amount < LIMIT
    ensures 0 <= OrderTotal(internal) - BillTotal(HonestBill(internal)) <= |internal|
  {
    hide ParseAmount, FormatAmount;
    if internal != [] {
      var order := internal[|internal| - 1];
      HonestBillTotal(internal[..|internal| - 1]);
      ParseLosesAtMostOneCent(order.amount);
      var external := HonestBill(internal);
      assert external[..|external| - 1] == HonestBill(internal[..|internal| - 1]);
    }
  }

  lemma {:induction false} HonestBillAt(internal: seq<PaidOrder>, i: nat)
    requires forall i :: 0 <= i < |internal| ==> 0 <= internal[i].amount
    requires i < |internal|
    ensures HonestBill(internal)[i]
            == BillRecord(internal[i].orderNo, ParseAmount(FormatAmount(internal[i].amount)))
  {
    hide ParseAmount, FormatAmount;
    if i < |internal| - 1 {
      HonestBillAt(internal[..|internal| - 1], i);
    }
  }

  lemma {:induction false} SameNumbers(external: seq<BillRecord>, internal: seq<PaidOrder>)
    requires |external| == |internal|
    requires forall i :: 0 <= i < |internal| ==> external[i].orderNo == internal[i].orderNo
    ensures forall n :: Billed(external, n) <==> Paid(internal, n)
  {
    forall n
      ensures Billed(external, n) <==> Paid(internal, n)
    {
      if Paid(internal, n) {
        var i :| 0 <= i < |internal| && internal[i].orderNo == n;
        assert external[i].orderNo == n;
      }
    }
  }

  /** With unique order numbers, reconciling an honest bill succeeds exactly when no amount is one that
      loses a cent; otherwise the lost cents show up as mismatches. */
  lemma {:induction false} HonestBillReconciles(internal: seq<PaidOrder>)
    requires UniqueOrders(internal)
    requires forall i :: 0 <= i < |internal| ==> 0 <= internal[i].amount < LIMIT
    ensures Comparison(HonestBill(internal), internal).success <==>
            forall i :: 0 <= i < |internal| ==> !LosesCent(internal[i].amount)
  {
    hide ParseAmount, FormatAmount, Comparison, LosesCent;
    var external := HonestBill(internal);
    forall i | 0 <= i < |internal|
      ensures external[i] == BillRecord(internal[i].orderNo,
                internal[i].amount - if LosesCent(internal[i].amount) then 1 else 0)
      ensures IsLast(internal, external[i].orderNo, i)
    {
      HonestBillAt(internal, i);
      ParseExactWhen(internal[i].amount);
    }
    hide HonestBill;
    SameNumbers(external, internal);
    SuccessMeans(external, internal);
    LastIsOnly(internal);
  }

  lemma {:induction false} LastIsOnly(internal: seq<PaidOrder>)
    requires UniqueOrders(internal)
    ensures forall i, k :: 0 <= i < |internal| && IsLast(internal, internal[i].orderNo, k) ==> i == k
  {
  }

  /** So an order of 29 cents fails its reconciliation against a bill that says 0.29. */
  lemma {:induction false} TwentyNineCentsMismatch(n: string)
    ensures !Comparison(HonestBill([PaidOrder(n, 29)]), [PaidOrder(n, 29)]).success
  {
    hide ParseAmount, FormatAmount, Comparison, HonestBill, LosesCent;
    var internal := [PaidOrder(n, 29)];
    HonestBillReconciles(internal);
    TwentyNineCents();
    ParseExactWhen(29);
    assert LosesCent(internal[0].amount);
  }
}
