/** How often an order can be refunded: the bound that unlocked refunds leave open,
    and the one that holds when refunds of the same order do not overlap. */
module Refunds {
  import opened Prelude
  import opened Orders
  import opened Lifecycle
  import opened Webhooks

  predicate RefundOf(p: Proc, n: OrderNo) {
    RefundInFlight(p) && p.orderNo == n
  }

  // ----- refunds of one order that do not overlap -----

  /** A write of the order's refund goes wrong so that a recorded refund may leave the order paid: the
      status write fails, or the record is made and its acknowledgement is lost. */
  ghost predicate Interrupted(s: Sys, a: Action, n: OrderNo) {
    ((a.RefundMark? && a.written == Failed) || (a.RefundRecord? && a.written == AckLost))
    && a.t in s.procs && RefundOf(s.procs[a.t], n)
  }

  ghost predicate NoneInFlight(s: Sys, n: OrderNo) {
    forall t :: t in s.procs ==> !RefundOf(s.procs[t], n)
  }

  /** Every refund of order n starts with no other refund of it in flight, and none is interrupted.
      Refunds of other orders and other requests may interleave and fail freely. */
  ghost predicate Exclusive(s: Sys, actions: seq<Action>, n: OrderNo) {
    actions == [] ||
    var init, last := actions[..|actions| - 1], actions[|actions| - 1];
    && Exclusive(s, init, n)
    && !Interrupted(Run(s, init), last, n)
    && (last.RefundStart? && last.n == n ==> NoneInFlight(Run(s, init), n))
  }

  /** No refund transaction of the order follows a successful one. */
  ghost predicate SuccessIsLast(txns: seq<Transaction>, n: OrderNo) {
    forall i, j :: 0 <= i < j < |txns| && txns[i].orderNo == txns[j].orderNo == n ==> txns[i].status != RefundSuccess
  }

  ghost predicate HasSuccess(txns: seq<Transaction>, n: OrderNo) {
    exists i :: 0 <= i < |txns| && txns[i].orderNo == n && txns[i].status == RefundSuccess
  }

  ghost predicate AtMostOneInFlight(s: Sys, n: OrderNo) {
    forall t, u :: t in s.procs && u in s.procs && RefundOf(s.procs[t], n) && RefundOf(s.procs[u], n) ==> t == u
  }

  /** After a success nothing can record another transaction: the row is refunded, or about to be. */
  ghost predicate Settled(s: Sys, n: OrderNo) {
    && n in s.orders
    && (forall t :: t in s.procs && RefundOf(s.procs[t], n) ==> s.procs[t] == RefundRecorded(n, RefundSuccess))
    && (s.orders[n].status == Refunded || exists t :: t in s.procs && s.procs[t] == RefundRecorded(n, RefundSuccess))
  }

  ghost predicate OneRefund(s: Sys, n: OrderNo) {
    && SuccessIsLast(s.txns, n)
    && AtMostOneInFlight(s, n)
    && (HasSuccess(s.txns, n) ==> Settled(s, n))
  }

  /** A step moves a refund in flight only if it is its own step. */
  lemma {:induction false} InFlightStep(s: Sys, a: Action, t: ProcId)
    requires t in s.procs && RefundInFlight(s.procs[t])
    ensures t in Step(s, a).procs
    ensures Step(s, a).procs[t] == s.procs[t] || ((a.RefundCall? || a.RefundRecord? || a.RefundMark?) && a.t == t)
  {
  }

  lemma {:induction false} StepTransactions(s: Sys, a: Action)
    ensures s.txns <= Step(s, a).txns && |Step(s, a).txns| <= |s.txns| + 1
    ensures |Step(s, a).txns| > |s.txns| ==>
              && a.RefundRecord? && a.t in s.procs && s.procs[a.t].RefundAnswered?
              && Step(s, a).txns[|s.txns|].orderNo == s.procs[a.t].orderNo
              && Step(s, a).txns[|s.txns|].status == s.procs[a.t].status
              && Step(s, a).procs == s.procs[a.t :=
                   if a.written == Acknowledged then RefundRecorded(s.procs[a.t].orderNo, s.procs[a.t].status)
                   else RefundEnded(s.procs[a.t].orderNo, RefundRejected(RecordFailed))]
              && Step(s, a).orders == s.orders
  {
  }

  lemma {:induction false} StepKeepsOneInFlight(s: Sys, a: Action, n: OrderNo)
    requires AtMostOneInFlight(s, n)
    requires a.RefundStart? && a.n == n ==> NoneInFlight(s, n)
    ensures AtMostOneInFlight(Step(s, a), n)
  {
    var s' := Step(s, a);
    forall t, u | t in s'.procs && u in s'.procs && RefundOf(s'.procs[t], n) && RefundOf(s'.procs[u], n)
      ensures t == u
    {
      InFlightOrigin(s, a, t);
      InFlightOrigin(s, a, u);
    }
  }

  lemma {:induction false} StepKeepsSettled(s: Sys, a: Action, n: OrderNo)
    requires RefundsSafe(s) && Settled(s, n)
    requires a.RefundStart? && a.n == n ==> NoneInFlight(s, n)
    requires !Interrupted(s, a, n)
    ensures Settled(Step(s, a), n)
  {
    var s' := Step(s, a);
    StepAdvancesRows(s, a);
    forall t | t in s'.procs && RefundOf(s'.procs[t], n)
      ensures s'.procs[t] == RefundRecorded(n, RefundSuccess)
    {
      InFlightOrigin(s, a, t);
      if t in s.procs && RefundOf(s.procs[t], n) {
        InFlightStep(s, a, t);
      }
    }
    if s.orders[n].status != Refunded {
      var t :| t in s.procs && s.procs[t] == RefundRecorded(n, RefundSuccess);
      InFlightStep(s, a, t);
      if s'.procs[t] != s.procs[t] {
        assert a.RefundMark? && a.t == t && a.written != Failed && s'.orders[n].status == Refunded;
      }
    }
  }

  /** The refund that records a success was alone in flight and found no success before it. */
  lemma {:induction false} NewSuccessSettles(s: Sys, a: Action, n: OrderNo)
    requires RefundsSafe(s) && AtMostOneInFlight(s, n)
    requires !HasSuccess(s.txns, n) && HasSuccess(Step(s, a).txns, n) && !Interrupted(s, a, n)
    ensures Settled(Step(s, a), n)
  {
    var s' := Step(s, a);
    StepTransactions(s, a);
    var i :| 0 <= i < |s'.txns| && s'.txns[i].orderNo == n && s'.txns[i].status == RefundSuccess;
    assert i == |s.txns|;
    assert RefundOf(s.procs[a.t], n);
    assert s'.procs[a.t] == RefundRecorded(n, RefundSuccess);
  }

  lemma {:induction false} StepKeepsOneRefund(s: Sys, a: Action, n: OrderNo)
    requires RefundsSafe(s) && OneRefund(s, n)
    requires a.RefundStart? && a.n == n ==> NoneInFlight(s, n)
    requires !Interrupted(s, a, n)
    ensures OneRefund(Step(s, a), n)
  {
    hide Step;
    var s' := Step(s, a);
    StepTransactions(s, a);
    StepKeepsOneInFlight(s, a, n);
    if HasSuccess(s.txns, n) {
      StepKeepsSettled(s, a, n);
    } else if HasSuccess(s'.txns, n) {
      NewSuccessSettles(s, a, n);
    }
    forall i, j | 0 <= i < j < |s'.txns| && s'.txns[i].orderNo == s'.txns[j].orderNo == n
      ensures s'.txns[i].status != RefundSuccess
    {
      if j == |s.txns| {
        assert RefundOf(s.procs[a.t], n) && s.procs[a.t].RefundAnswered?;
        assert !HasSuccess(s.txns, n);
        assert s.txns[i] == s'.txns[i];
      }
    }
  }

  /** With refunds of an order never overlapping and never interrupted, the order has at
      most one SUCCESS refund transaction, and no refund transaction after it. */
  lemma {:induction false} ExclusiveRefundsOnce(actions: seq<Action>, n: OrderNo)
    requires Exclusive(Initial, actions, n)
    ensures OneRefund(Run(Initial, actions), n) && Successes(Run(Initial, actions).txns, n) <= 1
  {
    hide Step;
    if actions != [] {
      var init, last := actions[..|actions| - 1], actions[|actions| - 1];
      ExclusiveRefundsOnce(init, n);
      RunKeepsSafe(Initial, init);
      StepKeepsOneRefund(Run(Initial, init), last, n);
    }
    AtMostOneSuccess(Run(Initial, actions).txns, n);
  }

  lemma {:induction false} AtMostOneSuccess(txns: seq<Transaction>, n: OrderNo)
    requires SuccessIsLast(txns, n)
    ensures Successes(txns, n) <= 1 && (Successes(txns, n) > 0 ==> HasSuccess(txns, n))
  {
    if txns != [] {
      var init := txns[..|txns| - 1];
      AtMostOneSuccess(init, n);
      assert HasSuccess(init, n) ==> HasSuccess(txns, n);
      if Successes(init, n) > 0 {
        var i :| 0 <= i < |init| && init[i].orderNo == n && init[i].status == RefundSuccess;
        assert txns[i] == init[i];
      }
    }
  }

  // ----- overlapping refunds: the exact bound -----

  function Successes(txns: seq<Transaction>, n: OrderNo): nat {
    if txns == [] then 0
    else
      var last := txns[|txns| - 1];
      Successes(txns[..|txns| - 1], n) + if last.orderNo == n && last.status == RefundSuccess then 1 else 0
  }

  /** The refund may still record a success. */
  predicate MaySucceed(p: Proc, n: OrderNo) {
    (p.RefundOpen? && p.orderNo == n) || (p.RefundAnswered? && p.orderNo == n && p.status == RefundSuccess)
  }

  ghost function Hopeful(s: Sys, n: OrderNo): set<ProcId> {
    set t | t in s.procs && MaySucceed(s.procs[t], n)
  }

  /** The successes recorded, and those still possible. */
  ghost function Potential(s: Sys, n: OrderNo): nat {
    Successes(s.txns, n) + |Hopeful(s, n)|
  }

  ghost predicate NoStart(actions: seq<Action>, n: OrderNo) {
    forall i :: 0 <= i < |actions| && actions[i].RefundStart? ==> actions[i].n != n
  }

  lemma {:induction false} StepKeepsPotential(s: Sys, a: Action, n: OrderNo)
    requires a.RefundStart? && a.n == n ==> n !in s.orders || s.orders[n].status != Paid
    ensures Potential(Step(s, a), n) <= Potential(s, n)
  {
    var s' := Step(s, a);
    StepTransactions(s, a);
    forall t | t in Hopeful(s', n)
      ensures t in Hopeful(s, n)
    {
      InFlightOrigin(s, a, t);
    }
    if |s'.txns| > |s.txns| {
      assert s'.txns[..|s'.txns| - 1] == s.txns;
      if s.procs[a.t].orderNo == n && s.procs[a.t].status == RefundSuccess {
        assert a.t in Hopeful(s, n) && a.t !in Hopeful(s', n);
        SubsetSize(Hopeful(s', n), Hopeful(s, n) - {a.t});
      } else {
        SubsetSize(Hopeful(s', n), Hopeful(s, n));
      }
    } else {
      assert s'.txns == s.txns;
      SubsetSize(Hopeful(s', n), Hopeful(s, n));
    }
  }

  lemma {:induction false} SubsetSize<T>(a: set<T>, b: set<T>)
    requires a <= b
    ensures |a| <= |b|
  {
    if a != {} {
      var x :| x in a;
      SubsetSize(a - {x}, b - {x});
    }
  }

  lemma {:induction false} PotentialBounds(s: Sys, actions: seq<Action>, n: OrderNo)
    requires NoStart(actions, n)
    ensures Successes(Run(s, actions).txns, n) <= Potential(s, n)
    ensures Potential(Run(s, actions), n) <= Potential(s, n)
  {
    if actions != [] {
      var init, last := actions[..|actions| - 1], actions[|actions| - 1];
      PotentialBounds(s, init, n);
      StepKeepsPotential(Run(s, init), last, n);
    }
  }

  /** The actions that let one open refund succeed. */
  function Succeed(p: Proc, t: ProcId): seq<Action> {
    if p.RefundOpen? then [RefundCall(t, ProviderAccepts(RefundSuccess, p.amount)), RefundRecord(t, Acknowledged)]
    else [RefundRecord(t, Acknowledged)]
  }

  lemma {:induction false} SucceedOne(s: Sys, t: ProcId, n: OrderNo)
    requires t in Hopeful(s, n)
    ensures
      var s' := Run(s, Succeed(s.procs[t], t));
      Hopeful(s', n) == Hopeful(s, n) - {t} && Successes(s'.txns, n) == Successes(s.txns, n) + 1
  {
    var p := s.procs[t];
    if p.RefundOpen? {
      var call := RefundCall(t, ProviderAccepts(RefundSuccess, p.amount));
      assert Succeed(p, t) == [call] + [RefundRecord(t, Acknowledged)];
      RunAppend(s, [call], [RefundRecord(t, Acknowledged)]);
      RunOne(s, call);
      RunOne(Step(s, call), RefundRecord(t, Acknowledged));
    } else {
      RunOne(s, RefundRecord(t, Acknowledged));
    }
    var s' := Run(s, Succeed(p, t));
    assert s'.txns[..|s'.txns| - 1] == s.txns;
  }

  lemma {:induction false} AllSucceed(s: Sys, n: OrderNo) returns (actions: seq<Action>)
    ensures NoStart(actions, n)
    ensures Successes(Run(s, actions).txns, n) == Potential(s, n)
    decreases |Hopeful(s, n)|
  {
    actions := [];
    if Hopeful(s, n) != {} {
      var t :| t in Hopeful(s, n);
      var one := Succeed(s.procs[t], t);
      SucceedOne(s, t, n);
      var rest := AllSucceed(Run(s, one), n);
      RunAppend(s, one, rest);
      actions := one + rest;
    }
  }

  /** Without a new refund of the order being started, it can collect exactly the SUCCESS refund
      transactions recorded plus one for each of its refunds past the status check. */
  lemma {:induction false} InFlightRefundsBound(s: Sys, n: OrderNo, k: nat)
    ensures k <= Potential(s, n) <==>
            exists actions :: NoStart(actions, n) && Successes(Run(s, actions).txns, n) >= k
  {
    if k <= Potential(s, n) {
      var actions := AllSucceed(s, n);
      assert NoStart(actions, n) && Successes(Run(s, actions).txns, n) >= k;
    }
    forall actions | NoStart(actions, n)
      ensures Successes(Run(s, actions).txns, n) <= Potential(s, n)
    {
      PotentialBounds(s, actions, n);
    }
  }

  /** Once an order is closed or refunded, no new refund of it passes the status check. */
  lemma {:induction false} FinalPotential(s: Sys, actions: seq<Action>, n: OrderNo)
    requires Safe(s) && n in s.orders && (s.orders[n].status == Closed || s.orders[n].status == Refunded)
    ensures Potential(Run(s, actions), n) <= Potential(s, n)
  {
    hide Step, Potential, Successes;
    if actions != [] {
      var init, last := actions[..|actions| - 1], actions[|actions| - 1];
      FinalPotential(s, init, n);
      RunAdvancesRows(s, init);
      StepKeepsPotential(Run(s, init), last, n);
    }
  }

  // ----- any number of refunds can overlap -----

  function StartRefunds(first: ProcId, n: OrderNo, k: nat): seq<Action> {
    if k == 0 then [] else StartRefunds(first, n, k - 1) + [RefundStart(first + k - 1, n, 0)]
  }

  lemma {:induction false} OneMoreStarts(s: Sys, t: ProcId, n: OrderNo)
    requires n in s.orders && s.orders[n].status == Paid && t !in s.procs
    ensures
      var s' := Step(s, RefundStart(t, n, 0));
      && s' == s.(procs := s.procs[t := RefundOpen(n, s.orders[n].amount)])
      && |Hopeful(s', n)| == |Hopeful(s, n)| + 1
  {
    assert Hopeful(Step(s, RefundStart(t, n, 0)), n) == Hopeful(s, n) + {t};
  }

  /** k refunds of a paid order, all past the status check. */
  lemma {:induction false} RefundsStart(s: Sys, first: ProcId, n: OrderNo, k: nat)
    requires n in s.orders && s.orders[n].status == Paid
    requires forall t :: t in s.procs ==> t < first
    ensures
      var s' := Run(s, StartRefunds(first, n, k));
      && s'.orders == s.orders && s'.txns == s.txns
      && (forall t :: t in s'.procs ==> t < first + k)
      && |Hopeful(s', n)| == |Hopeful(s, n)| + k
  {
    hide Step, Hopeful;
    if k > 0 {
      RefundsStart(s, first, n, k - 1);
      var actions, t := StartRefunds(first, n, k - 1), first + k - 1;
      OneMoreStarts(Run(s, actions), t, n);
      assert (actions + [RefundStart(t, n, 0)])[..|actions|] == actions;
    }
  }

  /** From a paid order, k refunds that start before any of them writes can all succeed. */
  lemma {:induction false} PaidCollects(s: Sys, n: OrderNo, k: nat) returns (actions: seq<Action>)
    requires n in s.orders && s.orders[n].status == Paid
    ensures Successes(Run(s, actions).txns, n) == Potential(s, n) + k
  {
    hide Step, Run, StartRefunds;
    var first := FreshId(s.procs.Keys);
    RefundsStart(s, first, n, k);
    var starts := StartRefunds(first, n, k);
    var finish := AllSucceed(Run(s, starts), n);
    RunAppend(s, starts, finish);
    actions := starts + finish;
  }

  /** From a pending order likewise, once a webhook has reported it paid. */
  lemma {:induction false} PendingCollects(s: Sys, n: OrderNo, k: nat) returns (actions: seq<Action>)
    requires n in s.orders && s.orders[n].status == Pending
    ensures Successes(Run(s, actions).txns, n) >= k
  {
    var t := FreshId(s.procs.Keys);
    HookSteps(s, t, n, ReportsPaid);
    hide Step, Run, Hook;
    var pay := Hook(t, n, ReportsPaid);
    var rest := PaidCollects(Run(s, pay), n, k);
    RunAppend(s, pay, rest);
    actions := pay + rest;
  }

  ghost predicate Collects(s: Sys, actions: seq<Action>, n: OrderNo, k: nat) {
    Successes(Run(s, actions).txns, n) >= k
  }

  /** Refund takes no lock: from a safe state, an order can come to have k SUCCESS refund transactions
      exactly when it is pending or paid, whatever k, or when k is at most the number recorded plus the
      number of its refunds past the status check. */
  lemma {:induction false} OverlappingRefundsBound(s: Sys, n: OrderNo, k: nat)
    requires Safe(s) && n in s.orders
    ensures (exists actions :: Collects(s, actions, n, k)) <==>
            s.orders[n].status == Pending || s.orders[n].status == Paid || k <= Potential(s, n)
  {
    hide Step, Run, Successes, Hopeful;
    if s.orders[n].status == Pending {
      var actions := PendingCollects(s, n, k);
      assert Collects(s, actions, n, k);
    } else if s.orders[n].status == Paid {
      var actions := PaidCollects(s, n, k);
      assert Collects(s, actions, n, k);
    } else {
      forall actions | Collects(s, actions, n, k)
        ensures k <= Potential(s, n)
      {
        FinalPotential(s, actions, n);
        SuccessesBelow(Run(s, actions), n);
      }
      if k <= Potential(s, n) {
        var actions := AllSucceed(s, n);
        assert Collects(s, actions, n, k);
      }
    }
  }

  lemma {:induction false} SuccessesBelow(s: Sys, n: OrderNo)
    ensures Successes(s.txns, n) <= Potential(s, n)
  {
  }

  function CreateRun(n: OrderNo, req: CreateRequest): seq<Action> {
    [CreateCheck(0, req, Found, true), CreateCharge(0, n, ChannelAccepts), CreateInsert(0, 0, Inserts)]
  }

  lemma {:induction false} CreateSteps(n: OrderNo, req: CreateRequest)
    requires req.amount > 0
    ensures Run(Initial, CreateRun(n, req))
            == Sys(map[n := NewOrder(req, 0)], [], map[0 := CreateEnded(req, Created(n))], [])
  {
    var s1 := Initial.(procs := map[0 := CreateChecked(req)]);
    var s2 := s1.(procs := map[0 := CreateCharged(req, n)]);
    var s3 := s2.(orders := map[n := NewOrder(req, 0)], procs := map[0 := CreateEnded(req, Created(n))]);
    RunThree(Initial, CreateCheck(0, req, Found, true), CreateCharge(0, n, ChannelAccepts),
             CreateInsert(0, 0, Inserts));
    assert Step(Initial, CreateCheck(0, req, Found, true)) == s1;
    assert Step(s1, CreateCharge(0, n, ChannelAccepts)) == s2;
    assert Step(s2, CreateInsert(0, 0, Inserts)) == s3;
  }

  /** An order that is created and then paid. */
  lemma {:induction false} PaidOrder(n: OrderNo, req: CreateRequest)
    requires req.amount > 0
    ensures
      var s := Run(Initial, CreateRun(n, req) + Hook(1, n, ReportsPaid));
      && n in s.orders && s.orders[n].status == Paid && s.txns == [] && s.procs.Keys == {0, 1}
      && Hopeful(s, n) == {}
  {
    CreateSteps(n, req);
    hide Step, Run, CreateRun, Hook;
    HookSteps(Run(Initial, CreateRun(n, req)), 1, n, ReportsPaid);
    RunAppend(Initial, CreateRun(n, req), Hook(1, n, ReportsPaid));
  }

  ghost predicate RefundedTimes(actions: seq<Action>, n: OrderNo, k: nat) {
    Successes(Run(Initial, actions).txns, n) == k
  }

  /** For any k there is a run, from nothing, after which one order has k SUCCESS refund transactions:
      k refunds pass the status check before any of them writes. */
  lemma {:induction false} AnyNumberOfRefunds(n: OrderNo, k: nat)
    ensures exists actions :: RefundedTimes(actions, n, k)
  {
    hide Step;
    var req := CreateRequest("app", "trade", "channel", 1);
    var paid, starts := CreateRun(n, req) + Hook(1, n, ReportsPaid), StartRefunds(2, n, k);
    PaidOrder(n, req);
    var s := Run(Initial, paid);
    RefundsStart(s, 2, n, k);
    RunAppend(Initial, paid, starts);
    var finish := AllSucceed(Run(s, starts), n);
    RunAppend(Initial, paid + starts, finish);
    assert RefundedTimes(paid + starts + finish, n, k);
  }

  // ----- refunds that do not overlap but are interrupted -----

  /** A refund that succeeds at the provider and is recorded, but whose status write fails. */
  function Unmarked(t: ProcId, n: OrderNo, amount: int): seq<Action> {
    [RefundStart(t, n, 0), RefundCall(t, ProviderAccepts(RefundSuccess, amount))]
    + [RefundRecord(t, Acknowledged), RefundMark(t, Failed)]
  }

  lemma {:induction false} UnmarkedSteps(s: Sys, t: ProcId, n: OrderNo, amount: int)
    requires n in s.orders && s.orders[n].status == Paid && t !in s.procs
    ensures
      var s' := Run(s, Unmarked(t, n, amount));
      && s'.orders == s.orders && s'.txns == s.txns + [Transaction(n, amount, RefundSuccess)]
      && s'.procs == s.procs[t := RefundEnded(n, RefundRejected(MarkFailed))]
  {
    var first, second := [RefundStart(t, n, 0), RefundCall(t, ProviderAccepts(RefundSuccess, amount))],
                         [RefundRecord(t, Acknowledged), RefundMark(t, Failed)];
    var s1 := s.(procs := s.procs[t := RefundOpen(n, s.orders[n].amount)]);
    var s2 := s1.(procs := s.procs[t := RefundAnswered(n, amount, RefundSuccess)],
                  trace := s.trace + [RefundSent(n, s.orders[n].amount)]);
    var s3 := s2.(procs := s.procs[t := RefundRecorded(n, RefundSuccess)],
                  txns := s.txns + [Transaction(n, amount, RefundSuccess)]);
    assert Step(s, first[0]) == s1;
    assert Step(s1, first[1]) == s2 by { assert s1.procs[t := s2.procs[t]] == s2.procs; }
    assert Step(s2, second[0]) == s3 by { assert s2.procs[t := s3.procs[t]] == s3.procs; }
    assert Step(s3, second[1]).procs == s.procs[t := RefundEnded(n, RefundRejected(MarkFailed))];
    RunTwo(s, first[0], first[1]);
    RunTwo(s2, second[0], second[1]);
    RunAppend(s, first, second);
  }

  lemma {:induction false} RunTwo(s: Sys, a: Action, b: Action)
    ensures Run(s, [a, b]) == Step(Step(s, a), b)
  {
    assert [a, b][..1] == [a];
    RunOne(s, a);
  }

  /** Each starts when the one before has ended. */
  function UnmarkedOnes(first: ProcId, n: OrderNo, amount: int, k: nat): seq<Action> {
    if k == 0 then [] else UnmarkedOnes(first, n, amount, k - 1) + Unmarked(first + k - 1, n, amount)
  }

  /** Status writes that keep failing leave a paid order refundable: k refunds one after the other, none
      overlapping another, leave k more SUCCESS transactions and the order still paid. */
  lemma {:induction false} FailedMarksRepeat(s: Sys, first: ProcId, n: OrderNo, amount: int, k: nat)
    requires n in s.orders && s.orders[n].status == Paid && NoneInFlight(s, n)
    requires forall t :: t in s.procs ==> t < first
    ensures
      var s' := Run(s, UnmarkedOnes(first, n, amount, k));
      && s'.orders == s.orders && NoneInFlight(s', n) && (forall t :: t in s'.procs ==> t < first + k)
      && Successes(s'.txns, n) == Successes(s.txns, n) + k
  {
    hide Step, Unmarked;
    if k > 0 {
      FailedMarksRepeat(s, first, n, amount, k - 1);
      var mid, t := Run(s, UnmarkedOnes(first, n, amount, k - 1)), first + k - 1;
      UnmarkedSteps(mid, t, n, amount);
      RunAppend(s, UnmarkedOnes(first, n, amount, k - 1), Unmarked(t, n, amount));
      hide Run;
      var txns := mid.txns + [Transaction(n, amount, RefundSuccess)];
      assert txns[..|txns| - 1] == mid.txns;
    }
  }
}
