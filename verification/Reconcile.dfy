/** Two-sided comparison of a channel's bill with the paid orders of the same day.
    The WeChat and Alipay reconcilers compare in the same way. */
module Reconcile {

  datatype BillRecord = BillRecord(orderNo: string, amount: int)

  datatype PaidOrder = PaidOrder(orderNo: string, amount: int)

  datatype AmountMismatch = AmountMismatch(orderNo: string, internalAmount: int, externalAmount: int, difference: int)

  datatype ReconcileResult = ReconcileResult(
    totalOrders: nat,
    matchedOrders: nat,
    missingOrders: seq<string>,
    extraOrders: seq<string>,
    amountMismatch: seq<AmountMismatch>,
    success: bool)

  // ----- what the result lists, said without maps -----

  ghost predicate Billed(external: seq<BillRecord>, n: string) {
    exists i :: 0 <= i < |external| && external[i].orderNo == n
  }

  ghost predicate Paid(internal: seq<PaidOrder>, n: string) {
    exists i :: 0 <= i < |internal| && internal[i].orderNo == n
  }

  /** Position i is the last order numbered n: later orders overwrite earlier ones in the index. */
  ghost predicate IsLast(internal: seq<PaidOrder>, n: string, i: int) {
    0 <= i < |internal| && internal[i].orderNo == n && forall k :: i < k < |internal| ==> internal[k].orderNo != n
  }

  // ----- the result as a function of both lists -----

  function InternalMap(internal: seq<PaidOrder>): (m: map<string, PaidOrder>)
    ensures forall n :: n in m <==> Paid(internal, n)
    ensures forall n :: n in m ==> exists i :: IsLast(internal, n, i) && m[n] == internal[i]
  {
    if internal == [] then map[]
    else
      var last := |internal| - 1;
      var before := InternalMap(internal[..last]);
      assert forall n, i :: IsLast(internal[..last], n, i) && n != internal[last].orderNo ==> IsLast(internal, n, i);
      assert IsLast(internal, internal[last].orderNo, last);
      assert forall n :: Paid(internal, n) ==> Paid(internal[..last], n) || n == internal[last].orderNo;
      before[internal[last].orderNo := internal[last]]
  }

  function ExternalMap(external: seq<BillRecord>): (m: map<string, BillRecord>)
    ensures forall n :: n in m <==> Billed(external, n)
  {
    if external == [] then map[]
    else
      var last := |external| - 1;
      assert forall n :: Billed(external, n) ==> Billed(external[..last], n) || n == external[last].orderNo;
      ExternalMap(external[..last])[external[last].orderNo := external[last]]
  }

  function Matched(external: seq<BillRecord>, m: map<string, PaidOrder>): nat {
    if external == [] then 0
    else
      var r := external[|external| - 1];
      Matched(external[..|external| - 1], m) + if r.orderNo in m && m[r.orderNo].amount == r.amount then 1 else 0
  }

  function Missing(external: seq<BillRecord>, m: map<string, PaidOrder>): seq<string> {
    if external == [] then []
    else
      var r := external[|external| - 1];
      Missing(external[..|external| - 1], m) + if r.orderNo in m then [] else [r.orderNo]
  }

  function MismatchOf(r: BillRecord, order: PaidOrder): AmountMismatch {
    AmountMismatch(r.orderNo, order.amount, r.amount, order.amount - r.amount)
  }

  function Mismatches(external: seq<BillRecord>, m: map<string, PaidOrder>): seq<AmountMismatch> {
    if external == [] then []
    else
      var r := external[|external| - 1];
      Mismatches(external[..|external| - 1], m)
      + if r.orderNo in m && m[r.orderNo].amount != r.amount then [MismatchOf(r, m[r.orderNo])] else []
  }

  function Extra(internal: seq<PaidOrder>, m: map<string, BillRecord>): seq<string> {
    if internal == [] then []
    else
      var order := internal[|internal| - 1];
      Extra(internal[..|internal| - 1], m) + if order.orderNo in m then [] else [order.orderNo]
  }

  function Comparison(external: seq<BillRecord>, internal: seq<PaidOrder>): ReconcileResult {
    var m := InternalMap(internal);
    var missing, extra, mismatches := Missing(external, m), Extra(internal, ExternalMap(external)),
        Mismatches(external, m);
    ReconcileResult(|external|, Matched(external, m), missing, extra, mismatches,
                    missing == [] && extra == [] && mismatches == [])
  }

  // ----- the code -----

  /** The loops of compare, in order: two that index, two that report. */
  method IndexOrders(internal: seq<PaidOrder>) returns (internalMap: map<string, PaidOrder>)
    ensures internalMap == InternalMap(internal)
  {
    internalMap := map[];
    for i := 0 to |internal|
      invariant internalMap == InternalMap(internal[..i])
    {
      assert internal[..i + 1][..i] == internal[..i];
      internalMap := internalMap[internal[i].orderNo := internal[i]];
    }
    assert internal[..|internal|] == internal;
  }

  method IndexBill(external: seq<BillRecord>) returns (externalMap: map<string, BillRecord>)
    ensures externalMap == ExternalMap(external)
  {
    externalMap := map[];
    for i := 0 to |external|
      invariant externalMap == ExternalMap(external[..i])
    {
      assert external[..i + 1][..i] == external[..i];
      externalMap := externalMap[external[i].orderNo := external[i]];
    }
    assert external[..|external|] == external;
  }

  method CheckBill(external: seq<BillRecord>, internalMap: map<string, PaidOrder>)
    returns (matched: nat, missing: seq<string>, mismatches: seq<AmountMismatch>)
    ensures matched == Matched(external, internalMap)
    ensures missing == Missing(external, internalMap)
    ensures mismatches == Mismatches(external, internalMap)
  {
    matched, missing, mismatches := 0, [], [];
    for i := 0 to |external|
      invariant matched == Matched(external[..i], internalMap)
      invariant missing == Missing(external[..i], internalMap)
      invariant mismatches == Mismatches(external[..i], internalMap)
    {
      assert external[..i + 1][..i] == external[..i];
      var record := external[i];
      if record.orderNo in internalMap {
        var order := internalMap[record.orderNo];
        if order.amount != record.amount {
          mismatches := mismatches + [MismatchOf(record, order)];
        } else {
          matched := matched + 1;
        }
      } else {
        missing := missing + [record.orderNo];
      }
    }
    assert external[..|external|] == external;
  }

  method CheckOrders(internal: seq<PaidOrder>, externalMap: map<string, BillRecord>) returns (extra: seq<string>)
    ensures extra == Extra(internal, externalMap)
  {
    extra := [];
    for i := 0 to |internal|
      invariant extra == Extra(internal[..i], externalMap)
    {
      assert internal[..i + 1][..i] == internal[..i];
      if internal[i].orderNo !in externalMap {
        extra := extra + [internal[i].orderNo];
      }
    }
    assert internal[..|internal|] == internal;
  }

  method Compare(external: seq<BillRecord>, internal: seq<PaidOrder>) returns (result: ReconcileResult)
    ensures result == Comparison(external, internal)
  {
    var internalMap := IndexOrders(internal);
    var externalMap := IndexBill(external);
    var matched, missing, mismatches := CheckBill(external, internalMap);
    var extra := CheckOrders(internal, externalMap);
    var success := |missing| == 0 && |extra| == 0 && |mismatches| == 0;
    result := ReconcileResult(|external|, matched, missing, extra, mismatches, success);
  }

  // ----- every record is reported once, in the right list -----

  lemma {:induction false} RecordsPartition(external: seq<BillRecord>, m: map<string, PaidOrder>)
    ensures |external| == Matched(external, m) + |Missing(external, m)| + |Mismatches(external, m)|
  {
    if external != [] {
      RecordsPartition(external[..|external| - 1], m);
    }
  }

  lemma {:induction false} MissingMembers(external: seq<BillRecord>, m: map<string, PaidOrder>, n: string)
    ensures n in Missing(external, m) <==> Billed(external, n) && n !in m
  {
    if external != [] {
      var init := external[..|external| - 1];
      MissingMembers(init, m, n);
      assert Billed(external, n) <==> Billed(init, n) || external[|external| - 1].orderNo == n;
    }
  }

  lemma {:induction false} ExtraMembers(internal: seq<PaidOrder>, m: map<string, BillRecord>, n: string)
    ensures n in Extra(internal, m) <==> Paid(internal, n) && n !in m
  {
    if internal != [] {
      var init := internal[..|internal| - 1];
      ExtraMembers(init, m, n);
      assert Paid(internal, n) <==> Paid(init, n) || internal[|internal| - 1].orderNo == n;
    }
  }

  lemma {:induction false} MismatchMembers(external: seq<BillRecord>, m: map<string, PaidOrder>, d: AmountMismatch)
    ensures d in Mismatches(external, m) <==>
            exists i :: 0 <= i < |external| && external[i].orderNo in m
              && m[external[i].orderNo].amount != external[i].amount
                  && d == MismatchOf(external[i], m[external[i].orderNo])
  {
    if external != [] {
      var init, r := external[..|external| - 1], external[|external| - 1];
      MismatchMembers(init, m, d);
      hide MismatchOf;
      assert forall i :: 0 <= i < |init| ==> external[i] == init[i];
    }
  }

  /** Each record of the bill is counted as matched or put in exactly one list, duplicates included;
      the lists hold the orders on one side only, and the orders whose last internal amount differs. */
  lemma {:induction false} ComparisonReportsAll(external: seq<BillRecord>, internal: seq<PaidOrder>, n: string,
      d: AmountMismatch)
    ensures
      var r := Comparison(external, internal);
      && r.totalOrders == |external| == r.matchedOrders + |r.missingOrders| + |r.amountMismatch|
      && (n in r.missingOrders <==> Billed(external, n) && !Paid(internal, n))
      && (n in r.extraOrders <==> Paid(internal, n) && !Billed(external, n))
      && (d in r.amountMismatch <==>
            exists i, k :: 0 <= i < |external| && IsLast(internal, external[i].orderNo, k)
              && internal[k].amount != external[i].amount
              && d.orderNo == external[i].orderNo && d.internalAmount == internal[k].amount
              && d.externalAmount == external[i].amount && d.difference == internal[k].amount - external[i].amount)
      && (r.success <==> r.missingOrders == [] && r.extraOrders == [] && r.amountMismatch == [])
  {
    var m := InternalMap(internal);
    RecordsPartition(external, m);
    MissingMembers(external, m, n);
    ExtraMembers(internal, ExternalMap(external), n);
    MismatchMembers(external, m, d);
    forall i, k | 0 <= i < |external| && IsLast(internal, external[i].orderNo, k)
      ensures external[i].orderNo in m && m[external[i].orderNo] == internal[k]
    {
      assert Paid(internal, external[i].orderNo);
    }
  }

  /** The records of the bill that name order n, and those that carry the last amount of their order. */
  ghost function Naming(external: seq<BillRecord>, n: string): set<int> {
    set i | 0 <= i < |external| && external[i].orderNo == n
  }

  ghost function OrdersNaming(internal: seq<PaidOrder>, n: string): set<int> {
    set i | 0 <= i < |internal| && internal[i].orderNo == n
  }

  ghost predicate Agrees(record: BillRecord, internal: seq<PaidOrder>) {
    exists k :: IsLast(internal, record.orderNo, k) && internal[k].amount == record.amount
  }

  ghost function Agreeing(external: seq<BillRecord>, internal: seq<PaidOrder>): set<int> {
    set i | 0 <= i < |external| && Agrees(external[i], internal)
  }

  lemma {:induction false} NamingGrows(external: seq<BillRecord>, n: string)
    requires external != []
    ensures |Naming(external, n)|
            == |Naming(external[..|external| - 1], n)| + if external[|external| - 1].orderNo == n then 1 else 0
  {
    var init, last := external[..|external| - 1], |external| - 1;
    assert forall i :: 0 <= i < last ==> init[i] == external[i];
    assert Naming(external, n) == Naming(init, n) + if external[last].orderNo == n then {last} else {};
  }

  lemma {:induction false} OrdersNamingGrows(internal: seq<PaidOrder>, n: string)
    requires internal != []
    ensures |OrdersNaming(internal, n)|
            == |OrdersNaming(internal[..|internal| - 1], n)| + if internal[|internal| - 1].orderNo == n then 1 else 0
  {
    var init, last := internal[..|internal| - 1], |internal| - 1;
    assert forall i :: 0 <= i < last ==> init[i] == internal[i];
    assert OrdersNaming(internal, n) == OrdersNaming(init, n) + if internal[last].orderNo == n then {last} else {};
  }

  lemma {:induction false} AgreeingGrows(external: seq<BillRecord>, internal: seq<PaidOrder>)
    requires external != []
    ensures |Agreeing(external, internal)|
            == |Agreeing(external[..|external| - 1], internal)|
               + if Agrees(external[|external| - 1], internal) then 1 else 0
  {
    hide Agrees;
    var init, last := external[..|external| - 1], |external| - 1;
    assert forall i :: 0 <= i < last ==> init[i] == external[i];
    assert Agreeing(external, internal)
        == Agreeing(init, internal) + if Agrees(external[last], internal) then {last} else {};
  }

  lemma {:induction false} MissingTimes(external: seq<BillRecord>, m: map<string, PaidOrder>, n: string)
    ensures multiset(Missing(external, m))[n] == if n in m then 0 else |Naming(external, n)|
  {
    if external == [] {
      assert Naming(external, n) == {};
    } else {
      MissingTimes(external[..|external| - 1], m, n);
      NamingGrows(external, n);
      hide Naming;
    }
  }

  lemma {:induction false} ExtraTimes(internal: seq<PaidOrder>, m: map<string, BillRecord>, n: string)
    ensures multiset(Extra(internal, m))[n] == if n in m then 0 else |OrdersNaming(internal, n)|
  {
    if internal == [] {
      assert OrdersNaming(internal, n) == {};
    } else {
      ExtraTimes(internal[..|internal| - 1], m, n);
      OrdersNamingGrows(internal, n);
      hide OrdersNaming;
    }
  }

  lemma {:induction false} AgreesByIndex(record: BillRecord, internal: seq<PaidOrder>)
    ensures
      var m := InternalMap(internal);
      Agrees(record, internal) <==> record.orderNo in m && m[record.orderNo].amount == record.amount
  {
    var m := InternalMap(internal);
    forall k, h | IsLast(internal, record.orderNo, k) && IsLast(internal, record.orderNo, h)
      ensures k == h
    {
    }
  }

  lemma {:induction false} MatchedTimes(external: seq<BillRecord>, internal: seq<PaidOrder>)
    ensures Matched(external, InternalMap(internal)) == |Agreeing(external, internal)|
  {
    hide InternalMap, Agrees;
    if external == [] {
      assert Agreeing(external, internal) == {};
    } else {
      MatchedTimes(external[..|external| - 1], internal);
      AgreesByIndex(external[|external| - 1], internal);
      AgreeingGrows(external, internal);
      hide Agreeing;
    }
  }

  /** How often each number is listed: a missing number once for each record that names it, an extra one once
      for each order; and the matched records are those that carry the last amount of their order. */
  lemma {:induction false} ListedAsOften(external: seq<BillRecord>, internal: seq<PaidOrder>, n: string)
    ensures
      var r := Comparison(external, internal);
      && multiset(r.missingOrders)[n] == (if Paid(internal, n) then 0 else |Naming(external, n)|)
      && multiset(r.extraOrders)[n] == (if Billed(external, n) then 0 else |OrdersNaming(internal, n)|)
      && r.matchedOrders == |Agreeing(external, internal)|
  {
    hide Naming, OrdersNaming, Agreeing;
    MissingTimes(external, InternalMap(internal), n);
    ExtraTimes(internal, ExternalMap(external), n);
    MatchedTimes(external, internal);
  }

  /** For any lists, success means that both sides name the same orders and that every record
      carries the last amount of its order. */
  lemma {:induction false} SuccessMeans(external: seq<BillRecord>, internal: seq<PaidOrder>)
    ensures Comparison(external, internal).success <==>
            && (forall n :: Billed(external, n) <==> Paid(internal, n))
            && (forall i, k :: 0 <= i < |external| && IsLast(internal, external[i].orderNo, k) ==>
                  internal[k].amount == external[i].amount)
  {
    var r := Comparison(external, internal);
    forall n
      ensures n in r.missingOrders <==> Billed(external, n) && !Paid(internal, n)
      ensures n in r.extraOrders <==> Paid(internal, n) && !Billed(external, n)
    {
      ComparisonReportsAll(external, internal, n, AmountMismatch("", 0, 0, 0));
    }
    assert r.missingOrders == [] <==> forall n :: Billed(external, n) ==> Paid(internal, n) by {
      if r.missingOrders != [] {
        assert r.missingOrders[0] in r.missingOrders;
      }
    }
    assert r.extraOrders == [] <==> forall n :: Paid(internal, n) ==> Billed(external, n) by {
      if r.extraOrders != [] {
        assert r.extraOrders[0] in r.extraOrders;
      }
    }
    NoMismatches(external, internal);
  }

  lemma {:induction false} NoMismatches(external: seq<BillRecord>, internal: seq<PaidOrder>)
    ensures Mismatches(external, InternalMap(internal)) == [] <==>
            forall i, k :: 0 <= i < |external| && IsLast(internal, external[i].orderNo, k) ==>
              internal[k].amount == external[i].amount
  {
    var found := Mismatches(external, InternalMap(internal));
    if found != [] {
      ComparisonReportsAll(external, internal, "", found[0]);
      assert found[0] in found;
    }
    forall i, k | 0 <= i < |external| && IsLast(internal, external[i].orderNo, k)
        && internal[k].amount != external[i].amount
      ensures found != []
    {
      ComparisonReportsAll(external, internal, "", MismatchOf(external[i], internal[k]));
    }
  }

  // ----- order numbers unique on each side -----

  ghost predicate UniqueBill(external: seq<BillRecord>) {
    forall i, k :: 0 <= i < k < |external| ==> external[i].orderNo != external[k].orderNo
  }

  ghost predicate UniqueOrders(internal: seq<PaidOrder>) {
    forall i, k :: 0 <= i < k < |internal| ==> internal[i].orderNo != internal[k].orderNo
  }

  /** A side as a map from order number to amount. */
  ghost predicate BillAmount(external: seq<BillRecord>, n: string, amount: int) {
    exists i :: 0 <= i < |external| && external[i] == BillRecord(n, amount)
  }

  ghost predicate OrderAmount(internal: seq<PaidOrder>, n: string, amount: int) {
    exists i :: 0 <= i < |internal| && internal[i] == PaidOrder(n, amount)
  }

  /** With unique numbers, success means that the two sides are the same map. */
  lemma {:induction false} SuccessMeansEqualSides(external: seq<BillRecord>, internal: seq<PaidOrder>)
    requires UniqueBill(external) && UniqueOrders(internal)
    ensures Comparison(external, internal).success <==>
            forall n, amount :: BillAmount(external, n, amount) <==> OrderAmount(internal, n, amount)
  {
    SuccessMeans(external, internal);
    assert forall k :: 0 <= k < |internal| ==> IsLast(internal, internal[k].orderNo, k);
    if forall n, amount :: BillAmount(external, n, amount) <==> OrderAmount(internal, n, amount) {
      forall n
        ensures Billed(external, n) <==> Paid(internal, n)
      {
        SidesAgree(external, internal, n);
      }
      forall i, k | 0 <= i < |external| && IsLast(internal, external[i].orderNo, k)
        ensures internal[k].amount == external[i].amount
      {
        assert BillAmount(external, external[i].orderNo, external[i].amount);
        var h :| 0 <= h < |internal| && internal[h] == PaidOrder(external[i].orderNo, external[i].amount);
        assert h == k;
      }
    }
    if Comparison(external, internal).success {
      forall n, amount
        ensures BillAmount(external, n, amount) <==> OrderAmount(internal, n, amount)
      {
        AmountsAgree(external, internal, n, amount);
      }
    }
  }

  lemma {:induction false} SidesAgree(external: seq<BillRecord>, internal: seq<PaidOrder>, n: string)
    requires forall n, amount :: BillAmount(external, n, amount) <==> OrderAmount(internal, n, amount)
    ensures Billed(external, n) <==> Paid(internal, n)
  {
    if Billed(external, n) {
      var i :| 0 <= i < |external| && external[i].orderNo == n;
      assert BillAmount(external, n, external[i].amount);
      assert OrderAmount(internal, n, external[i].amount);
    }
    if Paid(internal, n) {
      var i :| 0 <= i < |internal| && internal[i].orderNo == n;
      assert OrderAmount(internal, n, internal[i].amount);
      assert BillAmount(external, n, internal[i].amount);
    }
  }

  lemma {:induction false} AmountsAgree(external: seq<BillRecord>, internal: seq<PaidOrder>, n: string, amount: int)
    requires UniqueBill(external) && UniqueOrders(internal)
    requires forall n :: Billed(external, n) <==> Paid(internal, n)
    requires forall i, k :: 0 <= i < |external| && IsLast(internal, external[i].orderNo, k) ==>
               internal[k].amount == external[i].amount
    ensures BillAmount(external, n, amount) <==> OrderAmount(internal, n, amount)
  {
    if BillAmount(external, n, amount) {
      var i :| 0 <= i < |external| && external[i] == BillRecord(n, amount);
      assert Billed(external, n);
      var k :| 0 <= k < |internal| && internal[k].orderNo == n;
      assert IsLast(internal, n, k);
    }
    if OrderAmount(internal, n, amount) {
      var k :| 0 <= k < |internal| && internal[k] == PaidOrder(n, amount);
      assert Paid(internal, n) && IsLast(internal, n, k);
      var i :| 0 <= i < |external| && external[i].orderNo == n;
    }
  }

  // ----- conservation of money -----

  function BillTotal(external: seq<BillRecord>): int {
    if external == [] then 0 else BillTotal(external[..|external| - 1]) + external[|external| - 1].amount
  }

  function OrderTotal(internal: seq<PaidOrder>): int {
    if internal == [] then 0 else OrderTotal(internal[..|internal| - 1]) + internal[|internal| - 1].amount
  }

  function DifferenceTotal(ds: seq<AmountMismatch>): int {
    if ds == [] then 0 else DifferenceTotal(ds[..|ds| - 1]) + ds[|ds| - 1].difference
  }

  /** The money of the bill's records that a list of order numbers singles out. */
  function BillTotalOf(external: seq<BillRecord>, listed: seq<string>): int {
    if external == [] then 0
    else
      var r := external[|external| - 1];
      BillTotalOf(external[..|external| - 1], listed) + if r.orderNo in listed then r.amount else 0
  }

  function OrderTotalOf(internal: seq<PaidOrder>, listed: seq<string>): int {
    if internal == [] then 0
    else
      var order := internal[|internal| - 1];
      OrderTotalOf(internal[..|internal| - 1], listed) + if order.orderNo in listed then order.amount else 0
  }

  /** What the internal side holds for the records of the bill. */
  function Counterpart(external: seq<BillRecord>, m: map<string, PaidOrder>): int {
    if external == [] then 0
    else
      var r := external[|external| - 1];
      Counterpart(external[..|external| - 1], m) + if r.orderNo in m then m[r.orderNo].amount else 0
  }

  lemma {:induction false} DifferenceAppend(ds: seq<AmountMismatch>, d: AmountMismatch)
    ensures DifferenceTotal(ds + [d]) == DifferenceTotal(ds) + d.difference
  {
    assert (ds + [d])[..|ds|] == ds;
  }

  /** Record by record, for any bill: counterpart minus bill is the mismatch differences minus the missing. */
  lemma {:induction false} BillBalance(external: seq<BillRecord>, m: map<string, PaidOrder>, listed: seq<string>)
    requires forall i :: 0 <= i < |external| ==> (external[i].orderNo in listed <==> external[i].orderNo !in m)
    ensures Counterpart(external, m) - BillTotal(external)
            == DifferenceTotal(Mismatches(external, m)) - BillTotalOf(external, listed)
  {
    if external != [] {
      var init, r := external[..|external| - 1], external[|external| - 1];
      BillBalance(init, m, listed);
      if r.orderNo in m && m[r.orderNo].amount != r.amount {
        DifferenceAppend(Mismatches(init, m), MismatchOf(r, m[r.orderNo]));
      } else {
        assert Mismatches(init, m) + [] == Mismatches(init, m);
      }
    }
  }

  /** How often the bill names an order. */
  function Times(external: seq<BillRecord>, n: string): (k: nat)
    ensures k > 0 <==> Billed(external, n)
  {
    if external == [] then 0
    else
      var init, r := external[..|external| - 1], external[|external| - 1];
      assert Billed(external, n) <==> Billed(init, n) || r.orderNo == n;
      Times(init, n) + if r.orderNo == n then 1 else 0
  }

  /** A new order number adds its amount to the counterpart as often as it is billed. */
  lemma {:induction false} CounterpartGrows(external: seq<BillRecord>, m: map<string, PaidOrder>, order: PaidOrder)
    requires order.orderNo !in m
    ensures Counterpart(external, m[order.orderNo := order])
            == Counterpart(external, m) + Times(external, order.orderNo) * order.amount
  {
    if external != [] {
      var init := external[..|external| - 1];
      CounterpartGrows(init, m, order);
      assert (Times(init, order.orderNo) + 1) * order.amount
          == Times(init, order.orderNo) * order.amount + order.amount;
    }
  }

  lemma {:induction false} CounterpartOfNothing(external: seq<BillRecord>)
    ensures Counterpart(external, map[]) == 0
  {
    if external != [] {
      CounterpartOfNothing(external[..|external| - 1]);
    }
  }

  function SurplusOf(external: seq<BillRecord>, order: PaidOrder): int {
    var k := Times(external, order.orderNo);
    if k > 0 then (k - 1) * order.amount else 0
  }

  lemma {:induction false} SurplusOfBilled(external: seq<BillRecord>, order: PaidOrder)
    ensures Times(external, order.orderNo) * order.amount
            == SurplusOf(external, order) + if Billed(external, order.orderNo) then order.amount else 0
  {
    var k := Times(external, order.orderNo);
    assert (k - 1) * order.amount + order.amount == k * order.amount;
  }

  /** The money of the paid orders that the bill names more than once, beyond the first time. */
  function Surplus(external: seq<BillRecord>, internal: seq<PaidOrder>): int {
    if internal == [] then 0
    else Surplus(external, internal[..|internal| - 1]) + SurplusOf(external, internal[|internal| - 1])
  }

  lemma {:induction false} OrderBalance(external: seq<BillRecord>, internal: seq<PaidOrder>, listed: seq<string>)
    requires UniqueOrders(internal)
    requires forall i :: 0 <= i < |internal| ==>
        (internal[i].orderNo in listed <==> !Billed(external, internal[i].orderNo))
    ensures OrderTotal(internal) + Surplus(external, internal)
            == Counterpart(external, InternalMap(internal)) + OrderTotalOf(internal, listed)
  {
    if internal == [] {
      CounterpartOfNothing(external);
    } else {
      var init, order := internal[..|internal| - 1], internal[|internal| - 1];
      OrderBalance(external, init, listed);
      assert !Paid(init, order.orderNo);
      CounterpartGrows(external, InternalMap(init), order);
      SurplusOfBilled(external, order);
      hide SurplusOf, Times, Counterpart, Billed, Paid;
    }
  }

  /** What the report explains of the difference between the two totals. */
  function Explained(external: seq<BillRecord>, internal: seq<PaidOrder>): int {
    var r := Comparison(external, internal);
    DifferenceTotal(r.amountMismatch) + OrderTotalOf(internal, r.extraOrders) - BillTotalOf(external, r.missingOrders)
  }

  /** For any lists, the report explains the difference of the totals exactly when the orders that
      are billed add up to what the bill's records are compared with. */
  lemma {:induction false} ExplainedByCounterpart(external: seq<BillRecord>, internal: seq<PaidOrder>)
    ensures Explained(external, internal)
            == Counterpart(external, InternalMap(internal)) - BillTotal(external)
               + OrderTotalOf(internal, Comparison(external, internal).extraOrders)
  {
    var r := Comparison(external, internal);
    forall i | 0 <= i < |external|
      ensures external[i].orderNo in r.missingOrders <==> external[i].orderNo !in InternalMap(internal)
    {
      MissingMembers(external, InternalMap(internal), external[i].orderNo);
      assert Billed(external, external[i].orderNo);
    }
    BillBalance(external, InternalMap(internal), r.missingOrders);
  }

  /** With unique internal numbers, as the orders table keeps them, the report explains the difference of
      the totals and the surplus on top, whatever the bill repeats. */
  lemma {:induction false} ExplainsSurplusToo(external: seq<BillRecord>, internal: seq<PaidOrder>)
    requires UniqueOrders(internal)
    ensures Explained(external, internal)
            == OrderTotal(internal) - BillTotal(external) + Surplus(external, internal)
  {
    ExplainedByCounterpart(external, internal);
    var r := Comparison(external, internal);
    forall i | 0 <= i < |internal|
      ensures internal[i].orderNo in r.extraOrders <==> !Billed(external, internal[i].orderNo)
    {
      ExtraMembers(internal, ExternalMap(external), internal[i].orderNo);
      assert Paid(internal, internal[i].orderNo);
    }
    OrderBalance(external, internal, r.extraOrders);
    hide Comparison, Explained;
  }

  /** Two records of the bill name the same paid order. */
  ghost predicate BilledTwice(external: seq<BillRecord>, internal: seq<PaidOrder>) {
    exists i, k :: 0 <= i < k < |external| && external[i].orderNo == external[k].orderNo
                   && Paid(internal, external[i].orderNo)
  }

  ghost predicate Twice(external: seq<BillRecord>, n: string) {
    exists i, k :: 0 <= i < k < |external| && external[i].orderNo == n && external[k].orderNo == n
  }

  lemma {:induction false} TimesTwice(external: seq<BillRecord>, n: string)
    ensures Times(external, n) >= 2 <==> Twice(external, n)
  {
    if external != [] {
      var init, last := external[..|external| - 1], |external| - 1;
      TimesTwice(init, n);
      if Twice(init, n) {
        var i, k :| 0 <= i < k < |init| && init[i].orderNo == n && init[k].orderNo == n;
        assert external[i].orderNo == n && external[k].orderNo == n;
      }
      if external[last].orderNo == n && Billed(init, n) {
        var i :| 0 <= i < |init| && init[i].orderNo == n;
        assert external[i].orderNo == n;
      }
      if Twice(external, n) {
        var i, k :| 0 <= i < k < |external| && external[i].orderNo == n && external[k].orderNo == n;
        assert init[i].orderNo == n;
        assert k < last ==> init[k].orderNo == n;
      }
    }
  }

  /** With positive amounts the surplus is nothing exactly when no paid order is billed twice. */
  lemma {:induction false} SurplusSign(external: seq<BillRecord>, internal: seq<PaidOrder>)
    requires forall i :: 0 <= i < |internal| ==> internal[i].amount > 0
    ensures Surplus(external, internal) >= 0
    ensures Surplus(external, internal) == 0 <==>
            forall i :: 0 <= i < |internal| ==> Times(external, internal[i].orderNo) <= 1
  {
    if internal != [] {
      var order := internal[|internal| - 1];
      SurplusSign(external, internal[..|internal| - 1]);
      SurplusOfSign(external, order);
      hide SurplusOf, Times;
    }
  }

  lemma {:induction false} SurplusOfSign(external: seq<BillRecord>, order: PaidOrder)
    requires order.amount > 0
    ensures SurplusOf(external, order) >= 0
    ensures SurplusOf(external, order) == 0 <==> Times(external, order.orderNo) <= 1
  {
    var k := Times(external, order.orderNo);
    if k > 1 {
      assert (k - 1) * order.amount >= order.amount;
    }
  }

  /** With unique internal numbers and positive amounts, which the orders table keeps, the report explains
      the whole difference of the two totals exactly when no paid order's number occurs twice in the bill. */
  lemma {:induction false} ConservedExactlyWhen(external: seq<BillRecord>, internal: seq<PaidOrder>)
    requires UniqueOrders(internal)
    requires forall i :: 0 <= i < |internal| ==> internal[i].amount > 0
    ensures OrderTotal(internal) - BillTotal(external) == Explained(external, internal)
            <==> !BilledTwice(external, internal)
  {
    ExplainsSurplusToo(external, internal);
    SurplusSign(external, internal);
    hide Explained, Surplus;
    forall i | 0 <= i < |internal|
      ensures Times(external, internal[i].orderNo) >= 2 <==> Twice(external, internal[i].orderNo)
    {
      TimesTwice(external, internal[i].orderNo);
    }
    if BilledTwice(external, internal) {
      var i, k :| 0 <= i < k < |external| && external[i].orderNo == external[k].orderNo
                  && Paid(internal, external[i].orderNo);
      var h :| 0 <= h < |internal| && internal[h].orderNo == external[i].orderNo;
      assert Twice(external, internal[h].orderNo);
    }
    forall h | 0 <= h < |internal| && Twice(external, internal[h].orderNo)
      ensures BilledTwice(external, internal)
    {
      var i, k :| 0 <= i < k < |external| && external[i].orderNo == internal[h].orderNo
                  && external[k].orderNo == internal[h].orderNo;
      assert Paid(internal, external[i].orderNo);
    }
  }

  /** With unique numbers on each side, the report explains the whole difference of the two totals. */
  lemma {:induction false} MoneyConserved(external: seq<BillRecord>, internal: seq<PaidOrder>)
    requires UniqueBill(external) && UniqueOrders(internal)
    ensures OrderTotal(internal) - BillTotal(external) == Explained(external, internal)
  {
    ExplainsSurplusToo(external, internal);
    NoSurplus(external, internal);
  }

  lemma {:induction false} NoSurplus(external: seq<BillRecord>, internal: seq<PaidOrder>)
    requires UniqueBill(external)
    ensures Surplus(external, internal) == 0
  {
    if internal != [] {
      NoSurplus(external, internal[..|internal| - 1]);
      TimesTwice(external, internal[|internal| - 1].orderNo);
    }
  }

  /** Without uniqueness the law fails, and success can hide it: a record billed twice against one
      order is matched twice. */
  lemma {:induction false} DuplicatesBreakConservation(n: string, amount: int)
    requires amount != 0
    ensures
      var external, internal := [BillRecord(n, amount), BillRecord(n, amount)], [PaidOrder(n, amount)];
      var r := Comparison(external, internal);
      && r.success && r.matchedOrders == 2
      && OrderTotal(internal) - BillTotal(external) != Explained(external, internal)
  {
    var r1, order := BillRecord(n, amount), PaidOrder(n, amount);
    var external, internal := [r1, r1], [order];
    var m := InternalMap(internal);
    assert internal[..0] == [] && m == map[n := order] && m[n].amount == amount;
    var e0: seq<BillRecord> := [];
    assert external[..|external| - 1] == [r1] && [r1][..0] == e0;
    assert Matched(e0, m) == 0 && Missing(e0, m) == [] && Mismatches(e0, m) == [];
    assert Matched([r1], m) == 1 && Missing([r1], m) == [] && Mismatches([r1], m) == [];
    assert Matched(external, m) == 2 && Missing(external, m) == [] && Mismatches(external, m) == [];
    assert ExternalMap([r1]) == map[n := r1] && ExternalMap(external) == map[n := r1];
    assert Extra(internal, ExternalMap(external)) == [];
    assert BillTotal([r1]) == amount && OrderTotal(internal) == amount;
    assert BillTotal(external) == BillTotal([r1]) + external[1].amount;
    assert BillTotalOf([r1], []) == 0 && OrderTotalOf(internal, []) == 0;
  }
}
