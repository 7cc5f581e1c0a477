/** NotifyService as code: every method moves the protocol's state by its own actions only. */
module NotifyService {
  import opened Prelude
  import opened Orders
  import opened Notify

  // ----- what the sweep reaches -----

  lemma {:induction false} SeqOfSet(found: seq<OrderNo>, members: set<OrderNo>)
    requires forall i :: 0 <= i < |found| ==> found[i] in members
    requires forall i, j :: 0 <= i < j < |found| ==> found[i] != found[j]
    ensures |found| <= |members|
  {
    if found != [] {
      var last := found[|found| - 1];
      SeqOfSet(found[..|found| - 1], members - {last});
    }
  }

  lemma {:induction false} SetWithinSeq(found: seq<OrderNo>, members: set<OrderNo>)
    requires forall m :: m in members ==> m in found
    ensures |members| <= |found|
  {
    if found != [] {
      var last := found[|found| - 1];
      var rest := found[..|found| - 1];
      assert forall m :: m in members - {last} ==> m in rest;
      SetWithinSeq(rest, members - {last});
    }
  }

  function AllEligible(rows: Table): set<OrderNo> {
    set n | n in rows && Eligible(rows[n])
  }

  /** A result lists n if fewer than `limit` eligible orders are as old, and only if fewer are strictly older. */
  lemma {:induction false} SweepPlaces(rows: Table, limit: nat, found: seq<OrderNo>, n: OrderNo)
    requires IsSweep(rows, limit, found) && n in rows && Eligible(rows[n])
    ensures |OlderEligible(rows, n)| < limit ==> n in found
    ensures |StrictlyOlderEligible(rows, n)| >= limit ==> n !in found
  {
    if n !in found {
      SeqOfSet(found, OlderEligible(rows, n));
    } else {
      var i :| 0 <= i < |found| && found[i] == n;
      forall m | m in StrictlyOlderEligible(rows, n)
        ensures m in found[..i]
      {
        assert m in found;
        var k :| 0 <= k < |found| && found[k] == m;
      }
      SetWithinSeq(found[..i], StrictlyOlderEligible(rows, n));
    }
  }

  predicate IsOldest(rows: Table, left: set<OrderNo>, n: OrderNo)
    requires left <= rows.Keys
  {
    n in left && forall m :: m in left ==> rows[n].createdAt <= rows[m].createdAt
  }

  lemma {:induction false} OldestExists(rows: Table, left: set<OrderNo>)
    requires left != {} && left <= rows.Keys
    ensures exists n :: IsOldest(rows, left, n)
  {
    var n :| n in left;
    if left == {n} {
      assert IsOldest(rows, left, n);
    } else {
      OldestExists(rows, left - {n});
      var m :| IsOldest(rows, left - {n}, m);
      assert IsOldest(rows, left, if rows[n].createdAt < rows[m].createdAt then n else m);
    }
  }

  /** All of `left`, oldest first. */
  ghost predicate Lists(rows: Table, left: set<OrderNo>, found: seq<OrderNo>)
    requires left <= rows.Keys
  {
    && (forall i :: 0 <= i < |found| ==> found[i] in left)
    && (forall m :: m in left ==> m in found)
    && (forall i, j :: 0 <= i < j < |found| ==>
          found[i] != found[j] && rows[found[i]].createdAt <= rows[found[j]].createdAt)
  }

  /** Where n stands in a list: before all of its age, or after them. */
  ghost predicate Placed(rows: Table, found: seq<OrderNo>, n: OrderNo, first: bool)
    requires n in rows && forall i :: 0 <= i < |found| ==> found[i] in rows
  {
    forall i, j :: 0 <= i < j < |found| ==>
      if first then found[j] == n ==> rows[found[i]].createdAt < rows[n].createdAt
      else found[i] == n ==> rows[found[j]].createdAt > rows[n].createdAt
  }

  /** The oldest of `left`, taking n as early, or as late, as its age allows. */
  lemma {:induction false} NextListed(rows: Table, left: set<OrderNo>, n: OrderNo, first: bool) returns (x: OrderNo)
    requires left != {} && left <= rows.Keys && n in rows
    ensures IsOldest(rows, left, x)
    ensures first && n in left && rows[n].createdAt == rows[x].createdAt ==> x == n
    ensures !first && x == n ==> forall m :: m in left && m != n ==> rows[m].createdAt > rows[n].createdAt
  {
    OldestExists(rows, left);
    x :| IsOldest(rows, left, x);
    if first && n in left && rows[n].createdAt == rows[x].createdAt {
      x := n;
    } else if !first && x == n && exists m :: m in left && m != n && rows[m].createdAt <= rows[n].createdAt {
      x :| x in left && x != n && rows[x].createdAt <= rows[n].createdAt;
    }
  }

  lemma {:induction false} ListExists(rows: Table, left: set<OrderNo>, n: OrderNo, first: bool)
    returns (found: seq<OrderNo>)
    requires left <= rows.Keys && n in rows
    ensures Lists(rows, left, found) && Placed(rows, found, n, first)
    decreases |left|
  {
    found := [];
    if left != {} {
      var x := NextListed(rows, left, n, first);
      var rest := ListExists(rows, left - {x}, n, first);
      found := [x] + rest;
      ListsOneMore(rows, left, x, rest);
      PlacedOneMore(rows, left, x, rest, n, first);
    }
  }

  lemma {:induction false} ListsOneMore(rows: Table, left: set<OrderNo>, x: OrderNo, rest: seq<OrderNo>)
    requires left <= rows.Keys && IsOldest(rows, left, x) && Lists(rows, left - {x}, rest)
    ensures Lists(rows, left, [x] + rest)
  {
    var found := [x] + rest;
    forall m | m in left
      ensures m in found
    {
      assert m == x || m in rest;
    }
    forall i, j | 0 <= i < j < |found|
      ensures found[i] != found[j] && rows[found[i]].createdAt <= rows[found[j]].createdAt
    {
      assert found[j] == rest[j - 1];
    }
  }

  lemma {:induction false} PlacedOneMore(rows: Table, left: set<OrderNo>, x: OrderNo, rest: seq<OrderNo>,
                                         n: OrderNo, first: bool)
    requires left <= rows.Keys && n in rows && IsOldest(rows, left, x)
    requires Lists(rows, left - {x}, rest) && Placed(rows, rest, n, first)
    requires first && n in left && rows[n].createdAt == rows[x].createdAt ==> x == n
    requires !first && x == n ==> forall m :: m in left && m != n ==> rows[m].createdAt > rows[n].createdAt
    ensures forall i :: 0 <= i < |rest| + 1 ==> ([x] + rest)[i] in rows
    ensures Placed(rows, [x] + rest, n, first)
  {
    var found := [x] + rest;
    forall i, j | 0 <= i < j < |found|
      ensures if first then found[j] == n ==> rows[found[i]].createdAt < rows[n].createdAt
              else found[i] == n ==> rows[found[j]].createdAt > rows[n].createdAt
    {
      assert found[j] == rest[j - 1];
      if i > 0 {
        assert found[i] == rest[i - 1];
      }
    }
  }

  function Cut(found: seq<OrderNo>, limit: nat): seq<OrderNo> {
    if limit < |found| then found[..limit] else found
  }

  /** The query may return the first `limit` of any list of all eligible orders, oldest first. */
  lemma {:induction false} CutIsSweep(rows: Table, limit: nat, found: seq<OrderNo>)
    requires Lists(rows, AllEligible(rows), found)
    ensures IsSweep(rows, limit, Cut(found, limit))
  {
    hide Eligible;
    var kept := Cut(found, limit);
    forall m | m in AllEligible(rows)
      ensures m in kept || exists k :: limit <= k < |found| && found[k] == m
    {
      var k :| 0 <= k < |found| && found[k] == m;
      if k < limit {
        assert kept[k] == m;
      }
    }
  }

  ghost predicate MayList(rows: Table, limit: nat, found: seq<OrderNo>, n: OrderNo) {
    IsSweep(rows, limit, found) && n in found
  }

  /** The query lists an eligible order whatever it does with ties exactly when fewer than `limit` others
      are as old, and may list it exactly when fewer than `limit` are strictly older: orders that never
      leave the front starve those behind. */
  lemma {:induction false} SweepReach(rows: Table, limit: nat, n: OrderNo)
    requires n in rows && Eligible(rows[n])
    ensures (forall found :: IsSweep(rows, limit, found) ==> n in found) <==> |OlderEligible(rows, n)| < limit
    ensures (exists found :: MayList(rows, limit, found, n)) <==> |StrictlyOlderEligible(rows, n)| < limit
  {
    forall found | IsSweep(rows, limit, found)
      ensures |OlderEligible(rows, n)| < limit ==> n in found
      ensures |StrictlyOlderEligible(rows, n)| >= limit ==> n !in found
    {
      SweepPlaces(rows, limit, found, n);
    }
    if |OlderEligible(rows, n)| >= limit {
      var found := MissedByTies(rows, limit, n);
    }
    if |StrictlyOlderEligible(rows, n)| < limit {
      var found := ListedByTies(rows, limit, n);
      assert MayList(rows, limit, found, n);
    }
  }

  lemma {:induction false} MissedByTies(rows: Table, limit: nat, n: OrderNo) returns (found: seq<OrderNo>)
    requires n in rows && Eligible(rows[n]) && |OlderEligible(rows, n)| >= limit
    ensures IsSweep(rows, limit, found) && n !in found
  {
    hide Eligible, IsSweep;
    var all := ListExists(rows, AllEligible(rows), n, false);
    found := Cut(all, limit);
    CutIsSweep(rows, limit, all);
    assert n in AllEligible(rows);
    var k :| 0 <= k < |all| && all[k] == n;
    forall m | m in OlderEligible(rows, n)
      ensures m in all[..k]
    {
      assert m in AllEligible(rows);
      var i :| 0 <= i < |all| && all[i] == m;
    }
    SetWithinSeq(all[..k], OlderEligible(rows, n));
  }

  lemma {:induction false} ListedByTies(rows: Table, limit: nat, n: OrderNo) returns (found: seq<OrderNo>)
    requires n in rows && Eligible(rows[n]) && |StrictlyOlderEligible(rows, n)| < limit
    ensures IsSweep(rows, limit, found) && n in found
  {
    hide Eligible, IsSweep;
    var all := ListExists(rows, AllEligible(rows), n, true);
    found := Cut(all, limit);
    CutIsSweep(rows, limit, all);
    assert n in AllEligible(rows);
    var k :| 0 <= k < |all| && all[k] == n;
    SeqOfSet(all[..k], StrictlyOlderEligible(rows, n));
    assert found[k] == n;
  }

  // ----- the service -----

  /** What the outside world answers during one attempt. */
  datatype Answer = Answer(ok: bool, logged: bool, bumped: bool)

  /** The attempts a delivery makes: up to the first success, at most five. */
  function Attempts(answers: seq<Answer>): nat
    requires |answers| == MAX_RETRIES
    ensures 1 <= Attempts(answers) <= MAX_RETRIES
  {
    FirstSuccess(answers, 0)
  }

  function FirstSuccess(answers: seq<Answer>, i: nat): (k: nat)
    requires i < |answers|
    ensures i < k <= |answers|
    ensures forall h :: i <= h < k - 1 ==> !answers[h].ok
    ensures k < |answers| ==> answers[k - 1].ok
    decreases |answers| - i
  {
    if answers[i].ok || i == |answers| - 1 then i + 1 else FirstSuccess(answers, i + 1)
  }

  function OutcomeOf(answers: seq<Answer>): Outcome
    requires |answers| == MAX_RETRIES
  {
    var k := Attempts(answers);
    if answers[k - 1].ok then Delivered(k) else GaveUp
  }

  /** A delivery succeeds with its first accepted attempt and gives up only after five refused ones. */
  lemma {:induction false} OutcomeDecided(answers: seq<Answer>)
    requires |answers| == 5
    ensures OutcomeOf(answers) == GaveUp <==> forall h :: 0 <= h < 5 ==> !answers[h].ok
    ensures OutcomeOf(answers) != GaveUp ==>
      var k := Attempts(answers);
      && OutcomeOf(answers) == Delivered(k) && 1 <= k <= 5 && answers[k - 1].ok
      && forall h :: 0 <= h < k - 1 ==> !answers[h].ok
  {
    hide FirstSuccess;
  }

  /** The row after the counters of the first k attempts. */
  function BumpRows(rows: Table, n: OrderNo, answers: seq<Answer>, k: nat): Table
    requires k <= |answers|
  {
    if k == 0 then rows else BumpRow(BumpRows(rows, n, answers, k - 1), n, answers[k - 1].bumped)
  }

  /** The row a delivery leaves: one increment per attempt made, then the status of its outcome. */
  function FinalRow(rows: Table, n: OrderNo, answers: seq<Answer>, marked: bool): Table
    requires |answers| == MAX_RETRIES
  {
    MarkRow(BumpRows(rows, n, answers, Attempts(answers)), n, OutcomeOf(answers), marked)
  }

  function AttemptLog(j: JobId, n: OrderNo, answer: Answer): seq<NotifyLog> {
    if answer.logged then [NotifyLog(n, Some(j), answer.ok)] else []
  }

  /** The log rows of the first k attempts, those that were stored. */
  function AttemptLogs(j: JobId, n: OrderNo, answers: seq<Answer>, k: nat): seq<NotifyLog>
    requires k <= |answers|
  {
    if k == 0 then []
    else AttemptLogs(j, n, answers, k - 1) + AttemptLog(j, n, answers[k - 1])
  }

  ghost function Stored(answers: seq<Answer>, k: nat): set<nat>
    requires k <= |answers|
  {
    set h: nat | h < k && answers[h].logged
  }

  ghost function Raised(answers: seq<Answer>, k: nat): set<nat>
    requires k <= |answers|
  {
    set h: nat | h < k && answers[h].bumped
  }

  /** The log holds one row for each attempt whose log was stored, and no other. */
  lemma {:induction false} LogsOfStored(j: JobId, n: OrderNo, answers: seq<Answer>, k: nat)
    requires k <= |answers|
    ensures |AttemptLogs(j, n, answers, k)| == |Stored(answers, k)|
  {
    if k == 0 {
      assert Stored(answers, 0) == {};
    } else {
      LogsOfStored(j, n, answers, k - 1);
      StoredOneMore(answers, k);
    }
  }

  lemma {:induction false} LogsOneMore(j: JobId, n: OrderNo, answers: seq<Answer>, k: nat)
    requires 0 < k <= |answers|
    ensures AttemptLogs(j, n, answers, k) == AttemptLogs(j, n, answers, k - 1) + AttemptLog(j, n, answers[k - 1])
  {
  }

  /** They stand in the order of the attempts: the row of attempt h comes after those stored before it. */
  lemma {:induction false} LogsInOrder(j: JobId, n: OrderNo, answers: seq<Answer>, k: nat, h: nat)
    requires h < k <= |answers| && answers[h].logged
    ensures |Stored(answers, h)| < |Stored(answers, k)| == |AttemptLogs(j, n, answers, k)|
    ensures AttemptLogs(j, n, answers, k)[|Stored(answers, h)|] == NotifyLog(n, Some(j), answers[h].ok)
  {
    hide Stored, AttemptLogs;
    LogsOfStored(j, n, answers, k);
    LogsOfStored(j, n, answers, k - 1);
    LogsOneMore(j, n, answers, k);
    if h < k - 1 {
      LogsInOrder(j, n, answers, k - 1, h);
    }
  }

  lemma {:induction false} StoredOneMore(answers: seq<Answer>, k: nat)
    requires 0 < k <= |answers|
    ensures |Stored(answers, k)| == |Stored(answers, k - 1)| + if answers[k - 1].logged then 1 else 0
    ensures |Raised(answers, k)| == |Raised(answers, k - 1)| + if answers[k - 1].bumped then 1 else 0
  {
    assert Stored(answers, k) == Stored(answers, k - 1) + if answers[k - 1].logged then {k - 1} else {};
    assert Raised(answers, k) == Raised(answers, k - 1) + if answers[k - 1].bumped then {k - 1} else {};
  }

  /** Each attempt whose increment succeeds raises the counter by one; nothing else changes. */
  lemma {:induction false} BumpedColumns(rows: Table, n: OrderNo, answers: seq<Answer>, k: nat)
    requires k <= |answers|
    ensures BumpRows(rows, n, answers, k) ==
            if n in rows then rows[n := rows[n].(retryCount := rows[n].retryCount + |Raised(answers, k)|)] else rows
  {
    if k == 0 {
      assert Raised(answers, 0) == {};
    } else {
      BumpedColumns(rows, n, answers, k - 1);
      StoredOneMore(answers, k);
      hide Raised;
    }
  }

  /** What a whole delivery leaves in the table: the increments that succeeded, and unless its write fails the
      status of its outcome. Every other column and every other row stays. */
  lemma {:induction false} FinalRowColumns(rows: Table, n: OrderNo, answers: seq<Answer>, marked: bool)
    requires |answers| == 5
    ensures n !in rows ==> FinalRow(rows, n, answers, marked) == rows
    ensures n in rows ==> FinalRow(rows, n, answers, marked) == rows[n := rows[n].(
              retryCount := rows[n].retryCount + |Raised(answers, Attempts(answers))|,
              notifyStatus := if !marked then rows[n].notifyStatus
                              else if answers[Attempts(answers) - 1].ok then Notified else FailedNotify)]
  {
    hide BumpRows, FirstSuccess, Attempts;
    BumpedColumns(rows, n, answers, Attempts(answers));
  }

  ghost predicate AllOwn(actions: seq<Action>, j: JobId) {
    forall i :: 0 <= i < |actions| ==> IsJobAction(actions[i]) && actions[i].j == j
  }

  lemma {:induction false} AllOwnAppend(s: State, first: seq<Action>, second: seq<Action>, j: JobId)
    requires AllOwn(first, j) && AllOwn(second, j)
    ensures AllOwn(first + second, j) && Run(s, first + second) == Run(Run(s, first), second)
  {
    RunAppend(s, first, second);
  }

  lemma {:induction false} OwnOne(s: State, a: Action)
    requires IsJobAction(a)
    ensures AllOwn([a], a.j) && Run(s, [a]) == Step(s, a)
  {
    RunOne(s, a);
  }

  /** Delivery j may have moved on, and no other delivery has changed. */
  ghost predicate OnlyMoves(before: map<JobId, Job>, after: map<JobId, Job>, j: JobId) {
    && j in before && j in after && after == before[j := after[j]]
    && after[j].orderNo == before[j].orderNo && after[j].pooled == before[j].pooled
  }

  lemma {:induction false} Moved(start: map<JobId, Job>, before: map<JobId, Job>, after: map<JobId, Job>, j: JobId)
    requires j in before && j in after && after == before[j := after[j]]
    requires after[j].orderNo == before[j].orderNo && after[j].pooled == before[j].pooled
    requires start == before || OnlyMoves(start, before, j)
    ensures OnlyMoves(start, after, j)
  {
    assert before[j := after[j]] == after;
  }

  lemma {:induction false} MovedOn(start: map<JobId, Job>, before: map<JobId, Job>, after: map<JobId, Job>, j: JobId)
    requires OnlyMoves(start, before, j) && OnlyMoves(before, after, j)
    ensures OnlyMoves(start, after, j)
  {
  }

  lemma {:induction false} NothingMoved(jobs: map<JobId, Job>, j: JobId)
    requires j in jobs
    ensures OnlyMoves(jobs, jobs, j)
  {
    assert jobs[j := jobs[j]] == jobs;
  }

  lemma {:induction false} RunNone(s: State, j: JobId)
    ensures Run(s, []) == s && AllOwn([], j)
  {
  }

  lemma {:induction false} NoTurnYet(rows: Table, j: JobId, n: OrderNo, answers: seq<Answer>)
    requires |answers| == MAX_RETRIES
    ensures Attempts(answers) == FirstSuccess(answers, 0) && BumpRows(rows, n, answers, 0) == rows
    ensures AttemptLogs(j, n, answers, 0) == []
  {
  }

  /** Turn i of the loop counts, and decides the outcome or hands it on to the next turn. */
  lemma {:induction false} AfterTurn(rows: Table, j: JobId, n: OrderNo, answers: seq<Answer>, i: nat, marked: bool)
    requires |answers| == MAX_RETRIES && i < MAX_RETRIES && Attempts(answers) == FirstSuccess(answers, i)
    ensures BumpRows(rows, n, answers, i + 1) == BumpRow(BumpRows(rows, n, answers, i), n, answers[i].bumped)
    ensures AttemptLogs(j, n, answers, i + 1) == AttemptLogs(j, n, answers, i) + AttemptLog(j, n, answers[i])
    ensures answers[i].ok ==> Attempts(answers) == i + 1 && OutcomeOf(answers) == Delivered(i + 1)
    ensures answers[i].ok || i == MAX_RETRIES - 1 ==>
      FinalRow(rows, n, answers, marked) == MarkRow(BumpRows(rows, n, answers, i + 1), n, OutcomeOf(answers), marked)
    ensures !answers[i].ok && i < MAX_RETRIES - 1 ==> Attempts(answers) == FirstSuccess(answers, i + 1)
    ensures !answers[i].ok && i == MAX_RETRIES - 1 ==> Attempts(answers) == MAX_RETRIES && OutcomeOf(answers) == GaveUp
  {
    hide BumpRow, MarkRow;
  }

  /** How many of k dispatches find a slot free. */
  function Taken(slots: nat, k: nat): nat {
    if slots >= 100 then 0 else if k <= 100 - slots then k else 100 - slots
  }

  /** Dispatching `found` in order starts pooled deliveries `first` and up for as many as have a slot, and
      leaves one deferral log for each of the rest; rows and alerts stay. */
  ghost predicate Dispatched(before: State, after: State, found: seq<OrderNo>, first: JobId, healthy: bool) {
    var k := Taken(before.slots, |found|);
    && after.rows == before.rows && after.alerts == before.alerts
    && after.slots == before.slots + k
    && (forall j :: j in after.jobs <==> j in before.jobs || first <= j < first + k)
    && (forall i :: 0 <= i < k ==> after.jobs[first + i] == Job(found[i], true, LookingUp, 0, 0))
    && (forall j :: j in before.jobs && !(first <= j < first + k) ==> after.jobs[j] == before.jobs[j])
    && |after.logs| == |before.logs| + (if healthy then |found| - k else 0)
    && before.logs <= after.logs
    && (healthy ==> forall i :: k <= i < |found| ==>
          after.logs[|before.logs| + i - k] == NotifyLog(found[i], None, false))
  }

  lemma {:induction false} DispatchedOneMore(start: State, before: State, after: State, found: seq<OrderNo>, n: OrderNo,
                                             first: JobId, healthy: bool)
    requires Dispatched(start, before, found, first, healthy)
    requires before.slots < 100 ==>
      after.slots == before.slots + 1 && after.logs == before.logs
      && after.jobs == before.jobs[first + |found| := Job(n, true, LookingUp, 0, 0)]
    requires before.slots >= 100 ==>
      after.slots == before.slots && after.jobs == before.jobs
      && after.logs == before.logs + if healthy then [NotifyLog(n, None, false)] else []
    requires after.rows == before.rows && after.alerts == before.alerts
    ensures Dispatched(start, after, found + [n], first, healthy)
  {
    var k := Taken(start.slots, |found|);
    if before.slots < 100 {
      assert k == |found|;
    } else {
      assert k == Taken(start.slots, |found| + 1);
    }
  }

  /** What is still to dispatch beforehand plays no part. */
  lemma {:induction false} DispatchedAnyTodo(before: State, after: State, found: seq<OrderNo>, first: JobId,
                                             healthy: bool)
    requires Dispatched(before.(todo := found), after, found, first, healthy)
    ensures Dispatched(before, after, found, first, healthy)
  {
  }

  lemma {:induction false} QueryStep(s: State, found: seq<OrderNo>)
    requires s.todo == [] && IsSweep(s.rows, SWEEP_LIMIT, found)
    ensures Step(s, SweepQuery(found)) == s.(todo := found)
  {
    hide IsSweep;
  }

  datatype RetryError = NoSuchOrder | OrderNotPaid | NoSuchApp | ResetFailed

  class NotifyService {
    var rows: Table
    var slots: nat
    var logs: seq<NotifyLog>
    var alerts: seq<JobId>
    /** Goroutines started so far, and the orders a sweep has still to dispatch. */
    ghost var jobs: map<JobId, Job>
    ghost var todo: seq<OrderNo>

    ghost function View(): State
      reads this
    {
      State(rows, slots, jobs, todo, logs, alerts)
    }

    /** NotifyAsync and NotifyRefundAsync up to the start of the goroutine. */
    method NotifyAsync(j: JobId, n: OrderNo, healthy: bool)
      requires j !in jobs
      modifies this`slots, this`logs, this`jobs
      ensures View() == StepDispatch(old(View()), j, n, healthy)
      ensures old(slots) < 100 ==>
        slots == old(slots) + 1 && logs == old(logs) && jobs == old(jobs)[j := Job(n, true, LookingUp, 0, 0)]
      ensures old(slots) >= 100 ==>
        slots == old(slots) && jobs == old(jobs)
        && logs == old(logs) + if healthy then [NotifyLog(n, None, false)] else []
    {
      if slots < POOL_SIZE {
        slots := slots + 1;
        jobs := jobs[j := Job(n, true, LookingUp, 0, 0)];
      } else {
        logs := logs + if healthy then [NotifyLog(n, None, false)] else [];
      }
    }

    // ----- the pieces of a delivery -----

    ghost method GetApp(j: JobId, ok: bool)
      requires j in jobs && jobs[j].phase == LookingUp
      modifies this`jobs
      ensures View() == Step(old(View()), LookupApp(j, ok))
      ensures jobs == old(jobs)[j := old(jobs)[j].(phase := if ok then Starting else Returning(NoApp))]
    {
      jobs := jobs[j := NextJob(jobs[j], LookupApp(j, ok))];
    }

    ghost method MarshalPayload(j: JobId, ok: bool)
      requires j in jobs && jobs[j].phase == Starting
      modifies this`jobs
      ensures View() == Step(old(View()), Marshal(j, ok))
      ensures jobs == old(jobs)[j := old(jobs)[j].(phase := if ok then Sending(0) else Returning(NoPayload))]
    {
      jobs := jobs[j := NextJob(jobs[j], Marshal(j, ok))];
    }

    ghost method DoNotifyPayload(j: JobId, i: nat, ok: bool)
      requires j in jobs && jobs[j].phase == Sending(i)
      modifies this`jobs
      ensures View() == Step(old(View()), Send(j, ok))
      ensures jobs == old(jobs)[j := old(jobs)[j].(phase := Logging(i, ok))]
    {
      jobs := jobs[j := NextJob(jobs[j], Send(j, ok))];
    }

    ghost method Sleep(j: JobId, i: nat)
      requires j in jobs && jobs[j].phase == Sleeping(i)
      modifies this`jobs
      ensures View() == Step(old(View()), Wake(j))
      ensures jobs == old(jobs)[j := old(jobs)[j].(phase := Sending(i + 1), slept := old(jobs)[j].slept + Backoff(i))]
    {
      jobs := jobs[j := NextJob(jobs[j], Wake(j))];
    }

    method SaveNotifyLog(j: JobId, n: OrderNo, ghost i: nat, ok: bool, healthy: bool)
      requires j in jobs && jobs[j].phase == Logging(i, ok) && jobs[j].orderNo == n
      modifies this`logs, this`jobs
      ensures View() == Step(old(View()), SaveLog(j, healthy))
      ensures jobs == old(jobs)[j := old(jobs)[j].(phase := Bumping(i, ok))]
      ensures logs == old(logs) + if healthy then [NotifyLog(n, Some(j), ok)] else []
    {
      logs := logs + if healthy then [NotifyLog(n, Some(j), ok)] else [];
      jobs := jobs[j := NextJob(jobs[j], SaveLog(j, healthy))];
    }

    method IncrementRetryCount(j: JobId, n: OrderNo, ghost i: nat, ghost ok: bool, healthy: bool)
      requires j in jobs && jobs[j].phase == Bumping(i, ok) && jobs[j].orderNo == n
      modifies this`rows, this`jobs
      ensures View() == Step(old(View()), Bump(j, healthy))
      ensures jobs.Keys == old(jobs).Keys && jobs == old(jobs)[j := jobs[j]]
      ensures jobs[j].orderNo == n && jobs[j].pooled == old(jobs)[j].pooled
      ensures jobs[j].phase == if ok then Marking(Delivered(i + 1))
                               else if i < 4 then Sleeping(i) else Marking(GaveUp)
      ensures rows == if healthy && n in old(rows)
                      then old(rows)[n := old(rows)[n].(retryCount := old(rows)[n].retryCount + 1)] else old(rows)
    {
      if healthy && n in rows {
        rows := rows[n := rows[n].(retryCount := rows[n].retryCount + 1)];
      }
      jobs := jobs[j := NextJob(jobs[j], Bump(j, healthy))];
    }

    method UpdateNotifyStatus(j: JobId, n: OrderNo, outcome: Outcome, healthy: bool)
      requires j in jobs && jobs[j].phase == Marking(outcome) && jobs[j].orderNo == n
      modifies this`rows, this`jobs
      ensures View() == Step(old(View()), Mark(j, healthy))
      ensures rows == if healthy && n in old(rows)
                      then old(rows)[n := old(rows)[n].(notifyStatus := if outcome.Delivered? then Notified
                                                                        else FailedNotify)]
                      else old(rows)
      ensures jobs
          == old(jobs)[j := old(jobs)[j].(phase := if outcome.Delivered? then Returning(outcome) else Alerting)]
    {
      if healthy && n in rows {
        rows := rows[n := rows[n].(notifyStatus := if outcome.Delivered? then Notified else FailedNotify)];
      }
      jobs := jobs[j := NextJob(jobs[j], Mark(j, healthy))];
    }

    method AlertOps(j: JobId)
      requires j in jobs && jobs[j].phase == Alerting
      modifies this`alerts, this`jobs
      ensures View() == Step(old(View()), Alert(j))
      ensures alerts == old(alerts) + [j]
      ensures jobs == old(jobs)[j := old(jobs)[j].(phase := Returning(GaveUp))]
    {
      alerts := alerts + [j];
      jobs := jobs[j := NextJob(jobs[j], Alert(j))];
    }

    /** The deferred receive from the pool channel. */
    method FreeSlot(j: JobId, ghost outcome: Outcome)
      requires j in jobs && jobs[j].phase == Returning(outcome) && jobs[j].pooled && slots > 0
      modifies this`slots, this`jobs
      ensures View() == Step(old(View()), Release(j))
      ensures slots == old(slots) - 1
      ensures jobs == old(jobs)[j := old(jobs)[j].(phase := Finished(outcome))]
    {
      slots := slots - 1;
      jobs := jobs[j := NextJob(jobs[j], Release(j))];
    }

    // ----- a delivery that runs without interruption -----

    /** A goroutine of the pool: it does what its own actions do, and frees its slot on every path. */
    method Deliver(j: JobId, n: OrderNo, appFound: bool, payloadOk: bool, answers: seq<Answer>, marked: bool)
      returns (ghost actions: seq<Action>)
      requires j in jobs && jobs[j] == Job(n, true, LookingUp, 0, 0) && slots > 0
      requires |answers| == MAX_RETRIES
      modifies this
      ensures View() == Run(old(View()), actions) && AllOwn(actions, j)
      ensures slots == old(slots) - 1
      ensures rows == if appFound && payloadOk then FinalRow(old(rows), n, answers, marked) else old(rows)
      ensures logs == old(logs) + if appFound && payloadOk then AttemptLogs(j, n, answers, Attempts(answers)) else []
      ensures alerts == old(alerts) + if appFound && payloadOk && forall h :: 0 <= h < 5 ==> !answers[h].ok
                                      then [j] else []
      ensures j in jobs && jobs == old(jobs)[j := jobs[j]]
      ensures jobs[j].phase == Finished(
                if !appFound then NoApp else if !payloadOk then NoPayload else OutcomeOf(answers))
    {
      hide Step, Run;
      ghost var s0 := View();
      GetApp(j, appFound);
      actions := [LookupApp(j, appFound)];
      RunOne(s0, LookupApp(j, appFound));
      ghost var outcome := NoApp;
      OutcomeDecided(answers);
      if appFound {
        ghost var acts := NotifyWithRetryPayload(j, n, payloadOk, answers, marked);
        RunAppend(s0, actions, acts);
        actions := actions + acts;
        outcome := if payloadOk then OutcomeOf(answers) else NoPayload;
      }
      FreeSlot(j, outcome);
      RunSnoc(s0, actions, Release(j));
      actions := actions + [Release(j)];
    }

    /** notifyWithRetryPayload: at most five attempts, doubling the wait, then the final status. */
    method NotifyWithRetryPayload(j: JobId, n: OrderNo, payloadOk: bool, answers: seq<Answer>, marked: bool)
      returns (ghost actions: seq<Action>)
      requires j in jobs && jobs[j].phase == Starting && jobs[j].orderNo == n
      requires |answers| == MAX_RETRIES
      modifies this`rows, this`logs, this`alerts, this`jobs
      ensures View() == Run(old(View()), actions) && AllOwn(actions, j)
      ensures OnlyMoves(old(jobs), jobs, j) && j in jobs
      ensures jobs[j].phase == Returning(if payloadOk then OutcomeOf(answers) else NoPayload)
      ensures rows == if payloadOk then FinalRow(old(rows), n, answers, marked) else old(rows)
      ensures logs == old(logs) + if payloadOk then AttemptLogs(j, n, answers, Attempts(answers)) else []
      ensures alerts == old(alerts) + if payloadOk && OutcomeOf(answers) == GaveUp then [j] else []
    {
      hide Step, Run, OutcomeOf, AllOwn, OnlyMoves, AttemptLogs, FinalRow;
      ghost var s0 := View();
      MarshalPayload(j, payloadOk);
      actions := [Marshal(j, payloadOk)];
      OwnOne(s0, Marshal(j, payloadOk));
      Moved(s0.jobs, s0.jobs, jobs, j);
      if payloadOk {
        ghost var before := jobs;
        ghost var acts := RetryLoop(j, n, answers, marked);
        MovedOn(s0.jobs, before, jobs, j);
        AllOwnAppend(s0, actions, acts, j);
        actions := actions + acts;
      }
    }

    /** Its loop over the attempts, and what follows it. */
    method RetryLoop(j: JobId, n: OrderNo, answers: seq<Answer>, marked: bool) returns (ghost actions: seq<Action>)
      requires j in jobs && jobs[j].phase == Sending(0) && jobs[j].orderNo == n
      requires |answers| == MAX_RETRIES
      modifies this`rows, this`logs, this`alerts, this`jobs
      ensures View() == Run(old(View()), actions) && AllOwn(actions, j)
      ensures OnlyMoves(old(jobs), jobs, j) && j in jobs
      ensures jobs[j].phase == Returning(OutcomeOf(answers))
      ensures rows == FinalRow(old(rows), n, answers, marked)
      ensures logs == old(logs) + AttemptLogs(j, n, answers, Attempts(answers))
      ensures alerts == old(alerts) + if OutcomeOf(answers) == GaveUp then [j] else []
    {
      hide Step, Run, BumpRow, MarkRow, Backoff, FirstSuccess, Attempts, OutcomeOf, AllOwn, BumpRows, OnlyMoves,
        AttemptLogs, FinalRow;
      ghost var s0 := View();
      NoTurnYet(s0.rows, j, n, answers);
      NothingMoved(jobs, j);
      RunNone(s0, j);
      actions := [];
      var i := 0;
      while i < MAX_RETRIES
        invariant 0 <= i <= MAX_RETRIES
        invariant View() == Run(s0, actions) && AllOwn(actions, j)
        invariant OnlyMoves(s0.jobs, jobs, j) && j in jobs && jobs[j].orderNo == n
        invariant jobs[j].phase == if i < MAX_RETRIES then Sending(i) else Marking(GaveUp)
        invariant rows == BumpRows(s0.rows, n, answers, i)
        invariant logs == s0.logs + AttemptLogs(j, n, answers, i) && alerts == s0.alerts
        invariant i < MAX_RETRIES ==> Attempts(answers) == FirstSuccess(answers, i)
        invariant i == MAX_RETRIES ==>
          && Attempts(answers) == MAX_RETRIES && OutcomeOf(answers) == GaveUp
          && FinalRow(s0.rows, n, answers, marked) == MarkRow(rows, n, GaveUp, marked)
        decreases MAX_RETRIES - i
      {
        ghost var before := jobs;
        ghost var acts := TryOnce(j, n, i, answers[i], marked);
        Moved(s0.jobs, before, jobs, j);
        AllOwnAppend(s0, actions, acts, j);
        AfterTurn(s0.rows, j, n, answers, i, marked);
        actions := actions + acts;
        if answers[i].ok {
          return;
        }
        i := i + 1;
      }
      ghost var before := jobs;
      ghost var acts := GiveUp(j, n, marked);
      Moved(s0.jobs, before, jobs, j);
      AllOwnAppend(s0, actions, acts, j);
      actions := actions + acts;
    }

    /** One turn of the loop: an attempt, then the status on success, or the wait before the next. */
    method TryOnce(j: JobId, n: OrderNo, i: nat, answer: Answer, marked: bool) returns (ghost actions: seq<Action>)
      requires i < MAX_RETRIES && j in jobs && jobs[j].phase == Sending(i) && jobs[j].orderNo == n
      modifies this`rows, this`logs, this`jobs
      ensures View() == Run(old(View()), actions) && AllOwn(actions, j)
      ensures j in jobs && jobs == old(jobs)[j := jobs[j]]
      ensures jobs[j].phase == if answer.ok then Returning(Delivered(i + 1))
                               else if i < MAX_RETRIES - 1 then Sending(i + 1) else Marking(GaveUp)
      ensures jobs[j].orderNo == n && jobs[j].pooled == old(jobs[j].pooled)
      ensures rows == var bumped := BumpRow(old(rows), n, answer.bumped);
                      if answer.ok then MarkRow(bumped, n, Delivered(i + 1), marked) else bumped
      ensures logs == old(logs) + if answer.logged then [NotifyLog(n, Some(j), answer.ok)] else []
    {
      hide Step, Run, BumpRow, Backoff;
      ghost var s0 := View();
      actions := Attempt(j, n, i, answer);
      if answer.ok {
        UpdateNotifyStatus(j, n, Delivered(i + 1), marked);
        RunSnoc(s0, actions, Mark(j, marked));
        actions := actions + [Mark(j, marked)];
      } else if i < MAX_RETRIES - 1 {
        Sleep(j, i);
        RunSnoc(s0, actions, Wake(j));
        actions := actions + [Wake(j)];
      }
    }

    /** After the last failed attempt. */
    method GiveUp(j: JobId, n: OrderNo, marked: bool) returns (ghost actions: seq<Action>)
      requires j in jobs && jobs[j].phase == Marking(GaveUp) && jobs[j].orderNo == n
      modifies this`rows, this`alerts, this`jobs
      ensures View() == Run(old(View()), actions) && AllOwn(actions, j)
      ensures j in jobs && jobs == old(jobs)[j := jobs[j]]
      ensures jobs[j].phase == Returning(GaveUp)
      ensures jobs[j].orderNo == n && jobs[j].pooled == old(jobs[j].pooled)
      ensures rows == MarkRow(old(rows), n, GaveUp, marked) && alerts == old(alerts) + [j]
    {
      hide Step, Run;
      ghost var s0 := View();
      UpdateNotifyStatus(j, n, GaveUp, marked);
      actions := [Mark(j, marked)];
      RunOne(s0, Mark(j, marked));
      AlertOps(j);
      RunSnoc(s0, actions, Alert(j));
      actions := actions + [Alert(j)];
    }

    /** One attempt: the request, its log row, and the retry counter. */
    method Attempt(j: JobId, n: OrderNo, i: nat, answer: Answer) returns (ghost actions: seq<Action>)
      requires j in jobs && jobs[j].phase == Sending(i) && jobs[j].orderNo == n
      modifies this`rows, this`logs, this`jobs
      ensures View() == Run(old(View()), actions) && AllOwn(actions, j)
      ensures j in jobs && jobs == old(jobs)[j := jobs[j]]
      ensures jobs[j].phase == AfterBump(i, answer.ok)
      ensures jobs[j].orderNo == n && jobs[j].pooled == old(jobs[j].pooled)
      ensures logs == old(logs) + if answer.logged then [NotifyLog(n, Some(j), answer.ok)] else []
      ensures rows == BumpRow(old(rows), n, answer.bumped)
    {
      hide Step, Run;
      ghost var s0 := View();
      DoNotifyPayload(j, i, answer.ok);
      actions := [Send(j, answer.ok)];
      RunOne(s0, Send(j, answer.ok));
      SaveNotifyLog(j, n, i, answer.ok, answer.logged);
      RunSnoc(s0, actions, SaveLog(j, answer.logged));
      actions := actions + [SaveLog(j, answer.logged)];
      IncrementRetryCount(j, n, i, answer.ok, answer.bumped);
      RunSnoc(s0, actions, Bump(j, answer.bumped));
      actions := actions + [Bump(j, answer.bumped)];
    }

    /** The sweep's query, as a selection of the oldest eligible order over and over. */
    method ListPendingNotifyOrders(limit: nat) returns (found: seq<OrderNo>)
      ensures IsSweep(rows, limit, found)
      ensures forall i :: 0 <= i < |found| ==>
        && found[i] in rows && rows[found[i]].status == Paid
        && rows[found[i]].notifyStatus == NotifyPending && rows[found[i]].retryCount < 5
      ensures |found| < limit ==> forall n :: n in rows && n !in found ==>
        rows[n].status != Paid || rows[n].notifyStatus != NotifyPending || rows[n].retryCount >= 5
      ensures |found| <= limit
      ensures forall i, k :: 0 <= i < k < |found| ==> rows[found[i]].createdAt <= rows[found[k]].createdAt
      ensures forall i, n :: 0 <= i < |found| && n in rows && Eligible(rows[n]) && n !in found ==>
                rows[found[i]].createdAt <= rows[n].createdAt
    {
      found := [];
      var left := AllEligible(rows);
      while |found| < limit && left != {}
        invariant |found| <= limit && left <= rows.Keys
        invariant forall n :: n in left ==> Eligible(rows[n]) && n !in found
        invariant forall n :: n in rows && Eligible(rows[n]) && n !in found ==> n in left
        invariant forall i :: 0 <= i < |found| ==> found[i] in rows && Eligible(rows[found[i]])
        invariant forall i, n :: 0 <= i < |found| && n in left ==> rows[found[i]].createdAt <= rows[n].createdAt
        invariant forall i, k :: 0 <= i < k < |found| ==>
                    found[i] != found[k] && rows[found[i]].createdAt <= rows[found[k]].createdAt
        decreases left
      {
        OldestExists(rows, left);
        var n :| IsOldest(rows, left, n);
        found := found + [n];
        left := left - {n};
      }
    }

    /** The loop of ProcessPendingNotifies dispatches the next listed order. */
    method DispatchNext(j: JobId, n: OrderNo, healthy: bool)
      requires j !in jobs && |todo| > 0 && todo[0] == n
      modifies this`slots, this`logs, this`jobs, this`todo
      ensures View() == Step(old(View()), SweepDispatch(j, healthy))
      ensures todo == old(todo)[1..]
      ensures old(slots) < 100 ==>
        slots == old(slots) + 1 && logs == old(logs) && jobs == old(jobs)[j := Job(n, true, LookingUp, 0, 0)]
      ensures old(slots) >= 100 ==>
        slots == old(slots) && jobs == old(jobs)
        && logs == old(logs) + if healthy then [NotifyLog(n, None, false)] else []
    {
      NotifyAsync(j, n, healthy);
      todo := todo[1..];
    }

    /** ProcessPendingNotifies: list at most 100 orders, then dispatch each; `first` and up are fresh.
        A query that fails dispatches nothing. */
    method ProcessPendingNotifies(first: JobId, healthy: bool, queried: bool) returns (found: Option<seq<OrderNo>>)
      requires todo == [] && forall j :: j in jobs ==> j < first
      modifies this`slots, this`logs, this`jobs, this`todo
      ensures found.Some? <==> queried
      ensures !queried ==> View() == old(View())
      ensures queried ==> |found.value| <= 100 && IsSweep(rows, 100, found.value)
      ensures queried ==> Dispatched(old(View()), View(), found.value, first, healthy)
      ensures queried ==>
        View() == Run(old(View()), [SweepQuery(found.value)] + SweepDispatches(first, |found.value|, healthy))
      ensures todo == []
    {
      if !queried {
        return None;
      }
      hide Step, Run, Dispatched, IsSweep, Eligible;
      ghost var s0 := View();
      var listed := ListPendingNotifyOrders(SWEEP_LIMIT);
      todo := listed;
      QueryStep(s0, listed);
      RunOne(s0, SweepQuery(listed));
      assert [SweepQuery(listed)] + SweepDispatches(first, 0, healthy) == [SweepQuery(listed)];
      DispatchAll(s0, listed, first, healthy);
      DispatchedAnyTodo(s0, View(), listed, first, healthy);
      return Some(listed);
    }

    method DispatchAll(ghost s0: State, found: seq<OrderNo>, first: JobId, healthy: bool)
      requires todo == found && forall j :: j in jobs ==> j < first
      requires View() == Run(s0, [SweepQuery(found)] + SweepDispatches(first, 0, healthy))
      modifies this`slots, this`logs, this`jobs, this`todo
      ensures View() == Run(s0, [SweepQuery(found)] + SweepDispatches(first, |found|, healthy))
      ensures Dispatched(old(View()), View(), found, first, healthy)
      ensures todo == []
    {
      hide Step, Run;
      ghost var start := View();
      var i := 0;
      while i < |found|
        invariant 0 <= i <= |found|
        invariant todo == found[i..]
        invariant forall j :: j in jobs ==> j < first + i
        invariant View() == Run(s0, [SweepQuery(found)] + SweepDispatches(first, i, healthy))
        invariant Dispatched(start, View(), found[..i], first, healthy)
      {
        ghost var done := [SweepQuery(found)] + SweepDispatches(first, i, healthy);
        ghost var now := View();
        DispatchNext(first + i, found[i], healthy);
        DispatchedOneMore(start, now, View(), found[..i], found[i], first, healthy);
        assert found[..i] + [found[i]] == found[..i + 1];
        RunSnoc(s0, done, SweepDispatch(first + i, healthy));
        assert done + [SweepDispatch(first + i, healthy)]
            == [SweepQuery(found)] + SweepDispatches(first, i + 1, healthy);
        i := i + 1;
      }
      assert found[..i] == found;
    }

    /** RetryNotify: reset the row of a paid order and start a delivery outside the pool, unless the reset
        fails or seems to. A lookup of the app that faults stops it as a missing app does. */
    method RetryNotify(j: JobId, n: OrderNo, appFound: bool, written: Written) returns (err: Option<RetryError>)
      requires j !in jobs
      modifies this
      ensures err == Some(NoSuchOrder) <==> n !in old(rows)
      ensures err == Some(OrderNotPaid) <==> n in old(rows) && old(rows)[n].status != Paid
      ensures err == Some(NoSuchApp) <==> n in old(rows) && old(rows)[n].status == Paid && !appFound
      ensures err == None <==> n in old(rows) && old(rows)[n].status == Paid && appFound && written == Acknowledged
      ensures rows == if n in old(rows) && old(rows)[n].status == Paid && appFound && written != Failed
                      then old(rows)[n := old(rows)[n].(retryCount := 0, notifyStatus := NotifyPending)] else old(rows)
      ensures jobs == if err == None then old(jobs)[j := Job(n, false, Starting, 0, 0)] else old(jobs)
      ensures View() == if n !in old(rows) || old(rows)[n].status != Paid || !appFound || written == Failed
                        then old(View())
                        else if written == AckLost then Step(old(View()), Reset(n))
                        else Step(Step(old(View()), Reset(n)), Spawn(j, n))
      ensures slots == old(slots) && logs == old(logs) && alerts == old(alerts)
    {
      if n !in rows {
        return Some(NoSuchOrder);
      }
      if rows[n].status != Paid {
        return Some(OrderNotPaid);
      }
      if !appFound {
        return Some(NoSuchApp);
      }
      if written != Failed {
        rows := rows[n := rows[n].(retryCount := 0, notifyStatus := NotifyPending)];
      }
      if written != Acknowledged {
        return Some(ResetFailed);
      }
      jobs := jobs[j := Job(n, false, Starting, 0, 0)];
      return None;
    }
  }

  function SweepDispatches(first: JobId, k: nat, healthy: bool): seq<Action> {
    if k == 0 then [] else SweepDispatches(first, k - 1, healthy) + [SweepDispatch(first + k - 1, healthy)]
  }
}
