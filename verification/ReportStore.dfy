/** Storage of reconciliation reports: an upsert of the report row, then a transaction that deletes its
    detail rows and inserts new ones. The transaction is READ COMMITTED and takes no lock on the report:
    its DELETE meets the rows committed by then, and its inserts show when it commits. */
module ReportStore {
  import opened Prelude
  import opened Reconcile

  /** The unique index: date, channel, and the app id with NULL read as "". */
  datatype Key = Key(date: string, channel: string, appId: string)

  datatype Summary = Summary(
    totalOrders: nat, matchedOrders: nat, longOrders: nat, shortOrders: nat, amountMismatch: nat,
    success: bool, filePath: string)

  datatype Report = Report(id: nat, summary: Summary)

  datatype Difference = Long(orderNo: string) | Short(orderNo: string) | Mismatch(mismatch: AmountMismatch)

  type CallId = nat

  /** A row of reconciliation_details. `writer` is the call whose transaction inserted it; with the report
      it stands for the row's own id, since a DELETE sees all rows of a transaction or none. */
  datatype Detail = Detail(reportId: nat, writer: CallId, difference: Difference)

  /** The detail transaction of a call, from its DELETE on: the writers of the rows it deleted. */
  datatype Tx = Tx(reportId: nat, seen: set<CallId>, result: ReconcileResult, committed: bool)

  datatype Store = Store(reports: map<Key, Report>, details: seq<Detail>, nextId: nat, txs: map<CallId, Tx>)

  const Empty := Store(map[], [], 0, map[])

  // ----- the statements -----

  function SummaryOf(result: ReconcileResult, path: string): Summary {
    Summary(result.totalOrders, result.matchedOrders, |result.missingOrders|, |result.extraOrders|,
            |result.amountMismatch|, result.success, path)
  }

  function Differences(result: ReconcileResult): seq<Difference> {
    seq(|result.missingOrders|, i requires 0 <= i < |result.missingOrders| => Long(result.missingOrders[i]))
    + seq(|result.extraOrders|, i requires 0 <= i < |result.extraOrders| => Short(result.extraOrders[i]))
    + seq(|result.amountMismatch|, i requires 0 <= i < |result.amountMismatch| => Mismatch(result.amountMismatch[i]))
  }

  /** INSERT ... ON CONFLICT DO UPDATE ... RETURNING id; the id sequence advances in either case. */
  function Upsert(s: Store, key: Key, summary: Summary): Store {
    var id := if key in s.reports then s.reports[key].id else s.nextId;
    s.(reports := s.reports[key := Report(id, summary)], nextId := s.nextId + 1)
  }

  function Seen(details: seq<Detail>, id: nat): set<CallId> {
    set d | d in details && d.reportId == id :: d.writer
  }

  function Without(details: seq<Detail>, id: nat, seen: set<CallId>): seq<Detail> {
    if details == [] then []
    else
      var last := details[|details| - 1];
      Without(details[..|details| - 1], id, seen)
      + if last.reportId == id && last.writer in seen then [] else [last]
  }

  function Rows(id: nat, writer: CallId, differences: seq<Difference>): seq<Detail> {
    seq(|differences|, i requires 0 <= i < |differences| => Detail(id, writer, differences[i]))
  }

  /** The DELETE of call c. A second DELETE that waits for the first one's rows finds them gone or left,
      so waiting does not change what it deletes. */
  function Delete(s: Store, c: CallId, id: nat, result: ReconcileResult): Store {
    s.(txs := s.txs[c := Tx(id, Seen(s.details, id), result, false)])
  }

  /** The COMMIT of call c: what it deleted goes, if it is still there, and what it inserted shows. */
  function Commit(s: Store, c: CallId): Store
    requires c in s.txs
  {
    var tx := s.txs[c];
    s.(details := Without(s.details, tx.reportId, tx.seen) + Rows(tx.reportId, c, Differences(tx.result)),
       txs := s.txs[c := tx.(committed := true)])
  }

  /** One write of some GenerateReport call. A call deletes and inserts under the id that its own upsert
      returned, which is the id of its key for good. A transaction that is rolled back never commits. */
  datatype Write =
    | SavesReport(key: Key, result: ReconcileResult, path: string)
    | Deletes(c: CallId, key: Key, result: ReconcileResult)
    | Commits(c: CallId)

  function Apply(s: Store, w: Write): Store {
    match w
    case SavesReport(key, result, path) => Upsert(s, key, SummaryOf(result, path))
    case Deletes(c, key, result) =>
      if key !in s.reports || c in s.txs then s else Delete(s, c, s.reports[key].id, result)
    case Commits(c) => if c !in s.txs || s.txs[c].committed then s else Commit(s, c)
  }

  /** The writes of any number of calls, however they interleave. */
  function ApplyAll(s: Store, writes: seq<Write>): Store {
    if writes == [] then s else Apply(ApplyAll(s, writes[..|writes| - 1]), writes[|writes| - 1])
  }

  // ----- what is stored under a key, without ids -----

  function DetailsOf(details: seq<Detail>, id: nat): seq<Difference> {
    if details == [] then []
    else
      var last := details[|details| - 1];
      DetailsOf(details[..|details| - 1], id) + if last.reportId == id then [last.difference] else []
  }

  /** The rows a call has in the table. */
  function RowsBy(details: seq<Detail>, c: CallId): seq<Difference> {
    if details == [] then []
    else
      var last := details[|details| - 1];
      RowsBy(details[..|details| - 1], c) + if last.writer == c then [last.difference] else []
  }

  function StoredSummary(s: Store, key: Key): Option<Summary> {
    if key in s.reports then Some(s.reports[key].summary) else None
  }

  function StoredDetails(s: Store, key: Key): seq<Difference> {
    if key in s.reports then DetailsOf(s.details, s.reports[key].id) else []
  }

  /** One id per report. */
  ghost predicate WellKeyed(s: Store) {
    && (forall k :: k in s.reports ==> s.reports[k].id < s.nextId)
    && (forall k, l :: k in s.reports && l in s.reports && s.reports[k].id == s.reports[l].id ==> k == l)
  }

  /** Ids of existing reports never change. */
  ghost predicate SameIds(before: map<Key, Report>, after: map<Key, Report>) {
    forall k :: k in before ==> k in after && after[k].id == before[k].id
  }

  lemma {:induction false} ApplyKeepsKeys(s: Store, w: Write)
    requires WellKeyed(s)
    ensures WellKeyed(Apply(s, w)) && SameIds(s.reports, Apply(s, w).reports)
  {
    hide Differences, Without, Rows, Seen, SummaryOf;
  }

  // ----- counts -----

  datatype Counts = Counts(long: nat, short: nat, mismatch: nat) {
    function Plus(other: Counts): Counts {
      Counts(long + other.long, short + other.short, mismatch + other.mismatch)
    }
  }

  const NONE := Counts(0, 0, 0)

  function CountOne(d: Difference): Counts {
    match d
    case Long(_) => Counts(1, 0, 0)
    case Short(_) => Counts(0, 1, 0)
    case Mismatch(_) => Counts(0, 0, 1)
  }

  function CountsOf(ds: seq<Difference>): Counts {
    if ds == [] then NONE else CountsOf(ds[..|ds| - 1]).Plus(CountOne(ds[|ds| - 1]))
  }

  function CountsIn(result: ReconcileResult): Counts {
    Counts(|result.missingOrders|, |result.extraOrders|, |result.amountMismatch|)
  }

  /** The counts of a report row are the numbers of the rows of each type. */
  predicate CountsAgree(summary: Summary, ds: seq<Difference>) {
    Counts(summary.longOrders, summary.shortOrders, summary.amountMismatch) == CountsOf(ds)
  }

  lemma {:induction false} CountsSnoc(a: seq<Difference>, d: Difference)
    ensures CountsOf(a + [d]) == CountsOf(a).Plus(CountOne(d))
  {
    assert (a + [d])[..|a|] == a;
  }

  lemma {:induction false} PlusMeans(a: Counts, b: Counts, c: Counts)
    ensures a.Plus(NONE) == a && a.Plus(b).Plus(c) == a.Plus(b.Plus(c))
  {
  }

  lemma {:induction false} CountsAppend(a: seq<Difference>, b: seq<Difference>)
    ensures CountsOf(a + b) == CountsOf(a).Plus(CountsOf(b))
  {
    CountsNothing();
    hide CountsOf, CountOne;
    if b == [] {
      assert a + b == a;
      PlusMeans(CountsOf(a), NONE, NONE);
    } else {
      var init, d := b[..|b| - 1], b[|b| - 1];
      CountsAppend(a, init);
      CountsSnoc(a + init, d);
      CountsSnoc(init, d);
      PlusMeans(CountsOf(a), CountsOf(init), CountOne(d));
      assert init + [d] == b;
      assert a + init + [d] == a + (init + [d]);
    }
  }

  lemma {:induction false} CountsNothing()
    ensures CountsOf([]) == NONE
  {
  }

  lemma {:induction false} CountBlocks(ds: seq<Difference>, long: nat, short: nat)
    requires long + short <= |ds|
    requires forall i :: 0 <= i < |ds| ==>
               (ds[i].Long? <==> i < long) && (ds[i].Short? <==> long <= i < long + short)
    ensures CountsOf(ds) == Counts(long, short, |ds| - long - short)
  {
    if ds != [] {
      var n := |ds| - 1;
      if long > n {
        CountBlocks(ds[..n], n, 0);
      } else if long + short > n {
        CountBlocks(ds[..n], long, n - long);
      } else {
        CountBlocks(ds[..n], long, short);
      }
    }
  }

  lemma {:induction false} CountsOfDifferences(result: ReconcileResult)
    ensures CountsOf(Differences(result)) == CountsIn(result)
  {
    CountBlocks(Differences(result), |result.missingOrders|, |result.extraOrders|);
  }

  // ----- the code -----

  /** The detail rows, block by block. */
  lemma {:induction false} DifferencesAt(result: ReconcileResult)
    ensures
      var all, m, e := Differences(result), |result.missingOrders|, |result.extraOrders|;
      && |all| == m + e + |result.amountMismatch|
      && (forall i :: 0 <= i < m ==> all[i] == Long(result.missingOrders[i]))
      && (forall i :: 0 <= i < e ==> all[m + i] == Short(result.extraOrders[i]))
      && (forall i :: 0 <= i < |result.amountMismatch| ==> all[m + e + i] == Mismatch(result.amountMismatch[i]))
  {
  }

  lemma {:induction false} RowsStep(id: nat, c: CallId, all: seq<Difference>, k: nat)
    requires k <= |all|
    ensures Rows(id, c, all[..0]) == []
    ensures k < |all| ==> Rows(id, c, all[..k + 1]) == Rows(id, c, all[..k]) + [Detail(id, c, all[k])]
  {
  }

  /** Where a detail transaction fails. A failed insert or commit rolls all of it back, unless only the
      acknowledgement of the commit is lost. */
  datatype Fault = NoFault | BeginFails | DeleteFails | InsertFails(at: nat) | CommitFails | CommitAckLost

  predicate Begun(fault: Fault) {
    fault != BeginFails && fault != DeleteFails
  }

  predicate Committed(fault: Fault, result: ReconcileResult) {
    fault == NoFault || fault == CommitAckLost || (fault.InsertFails? && fault.at >= |Differences(result)|)
  }

  /** What the detail transaction of one call writes. */
  function DetailWrites(c: CallId, key: Key, result: ReconcileResult, fault: Fault): seq<Write> {
    if !Begun(fault) then []
    else if !Committed(fault, result) then [Deletes(c, key, result)]
    else [Deletes(c, key, result), Commits(c)]
  }

  lemma {:induction false} ApplyWrites(s: Store, v: Write, w: Write)
    ensures ApplyAll(s, []) == s && ApplyAll(s, [v]) == Apply(s, v) && ApplyAll(s, [v, w]) == Apply(Apply(s, v), w)
  {
    assert [v, w][..1] == [v];
    assert [v][..0] == [];
  }

  lemma {:induction false} ApplyAppend(s: Store, first: seq<Write>, second: seq<Write>)
    ensures ApplyAll(s, first + second) == ApplyAll(ApplyAll(s, first), second)
  {
    if second == [] {
      assert first + second == first;
    } else {
      var init := second[..|second| - 1];
      ApplyAppend(s, first, init);
      assert (first + second)[..|first + second| - 1] == first + init;
    }
  }

  /** The number of orders a result lists. */
  function Listed(result: ReconcileResult): nat {
    |result.missingOrders| + |result.extraOrders| + |result.amountMismatch|
  }

  /** The rows of the report are replaced: those of other reports stay, and one row for each listed order
      follows them, the missing orders first, then the extra ones, then the mismatches. */
  ghost predicate Replaced(before: seq<Detail>, after: seq<Detail>, c: CallId, id: nat, result: ReconcileResult) {
    var k, m, e := |after| - Listed(result), |result.missingOrders|, |result.extraOrders|;
    && k >= 0
    && (forall d :: d in after[..k] <==> d in before && d.reportId != id)
    && (forall i :: 0 <= i < m ==> after[k + i] == Detail(id, c, Long(result.missingOrders[i])))
    && (forall i :: 0 <= i < e ==> after[k + m + i] == Detail(id, c, Short(result.extraOrders[i])))
    && (forall i :: 0 <= i < |result.amountMismatch| ==>
          after[k + m + e + i] == Detail(id, c, Mismatch(result.amountMismatch[i])))
  }

  lemma {:induction false} RowsReplace(before: seq<Detail>, kept: seq<Detail>, c: CallId, id: nat,
                                       result: ReconcileResult)
    requires forall d :: d in kept <==> d in before && d.reportId != id
    ensures Replaced(before, kept + Rows(id, c, Differences(result)), c, id, result)
  {
    DifferencesAt(result);
    hide Differences;
    var after := kept + Rows(id, c, Differences(result));
    assert after[..|kept|] == kept;
  }

  class ReconciliationService {
    var reports: map<Key, Report>
    var details: seq<Detail>
    var nextId: nat
    ghost var txs: map<CallId, Tx>

    ghost function View(): Store
      reads this
    {
      Store(reports, details, nextId, txs)
    }

    method SaveReport(key: Key, result: ReconcileResult, path: string, written: Written) returns (id: Option<nat>)
      modifies this`reports, this`nextId
      ensures id.Some? <==> written == Acknowledged
      ensures View() == if written == Failed then old(View()) else Upsert(old(View()), key, SummaryOf(result, path))
      ensures written == Failed ==> reports == old(reports) && nextId == old(nextId)
      ensures written != Failed ==> nextId == old(nextId) + 1 && reports == old(reports)[key := Report(
                if key in old(reports) then old(reports)[key].id else old(nextId),
                Summary(result.totalOrders, result.matchedOrders, |result.missingOrders|, |result.extraOrders|,
                        |result.amountMismatch|, result.success, path))]
      ensures id.Some? ==> key in reports && id.value == reports[key].id
    {
      if written == Failed {
        return None;
      }
      var row := if key in reports then reports[key].id else nextId;
      reports := reports[key := Report(row, SummaryOf(result, path))];
      nextId := nextId + 1;
      return if written == Acknowledged then Some(row) else None;
    }

    /** DELETE FROM reconciliation_details WHERE report_id = id. */
    method DetailsWithout(id: nat) returns (kept: seq<Detail>)
      ensures kept == Without(details, id, Seen(details, id))
      ensures forall d :: d in kept <==> d in details && d.reportId != id
    {
      kept := [];
      for i := 0 to |details|
        invariant kept == Without(details[..i], id, Seen(details, id))
        invariant forall d :: d in kept <==> d in details[..i] && d.reportId != id
      {
        assert details[..i + 1][..i] == details[..i];
        assert details[i] in details;
        if details[i].reportId != id {
          kept := kept + [details[i]];
        }
      }
      assert details[..|details|] == details;
    }

    method SaveReportDetails(c: CallId, id: nat, ghost key: Key, result: ReconcileResult, fault: Fault)
      returns (ok: bool)
      requires c !in txs && key in reports && reports[key].id == id
      modifies this`details, this`txs
      ensures ok <==> fault == NoFault || (fault.InsertFails? && fault.at >= Listed(result))
      ensures View() == ApplyAll(old(View()), DetailWrites(c, key, result, fault))
      ensures ok || fault == CommitAckLost ==> Replaced(old(details), details, c, id, result)
      ensures !ok && fault != CommitAckLost ==> details == old(details)
    {
      ghost var s0 := View();
      ApplyWrites(s0, Deletes(c, key, result), Commits(c));
      hide ApplyAll, Replaced;
      if fault == BeginFails || fault == DeleteFails {
        return false;
      }
      var tx := DetailsWithout(id);
      txs := txs[c := Tx(id, Seen(details, id), result, false)];
      assert View() == Apply(s0, Deletes(c, key, result));
      var inserted := InsertDetails(tx, c, id, result, fault);
      if inserted.None? || fault == CommitFails {
        return false;
      }
      RowsReplace(details, tx, c, id, result);
      details := inserted.value;
      txs := txs[c := txs[c].(committed := true)];
      return fault != CommitAckLost;
    }

    /** The three insert loops, up to the insert that fails. */
    method InsertDetails(start: seq<Detail>, c: CallId, id: nat, result: ReconcileResult, fault: Fault)
      returns (inserted: Option<seq<Detail>>)
      ensures inserted == if fault.InsertFails? && fault.at < |Differences(result)| then None
                          else Some(start + Rows(id, c, Differences(result)))
    {
      ghost var all := Differences(result);
      DifferencesAt(result);
      hide Differences, Rows;
      RowsStep(id, c, all, 0);
      assert start + [] == start;
      var tx, done := start, 0;
      for i := 0 to |result.missingOrders|
        invariant done == i && (fault.InsertFails? ==> done <= fault.at)
        invariant tx == start + Rows(id, c, all[..done])
      {
        RowsStep(id, c, all, done);
        if fault == InsertFails(done) {
          return None;
        }
        tx := tx + [Detail(id, c, Long(result.missingOrders[i]))];
        done := done + 1;
      }
      for i := 0 to |result.extraOrders|
        invariant done == |result.missingOrders| + i && (fault.InsertFails? ==> done <= fault.at)
        invariant tx == start + Rows(id, c, all[..done])
      {
        RowsStep(id, c, all, done);
        if fault == InsertFails(done) {
          return None;
        }
        tx := tx + [Detail(id, c, Short(result.extraOrders[i]))];
        done := done + 1;
      }
      for i := 0 to |result.amountMismatch|
        invariant done == |result.missingOrders| + |result.extraOrders| + i
        invariant fault.InsertFails? ==> done <= fault.at
        invariant tx == start + Rows(id, c, all[..done])
      {
        RowsStep(id, c, all, done);
        if fault == InsertFails(done) {
          return None;
        }
        tx := tx + [Detail(id, c, Mismatch(result.amountMismatch[i]))];
        done := done + 1;
      }
      assert all[..done] == all;
      return Some(tx);
    }

    /** Without a database the report is a file only. */
    method GenerateReport(c: CallId, key: Key, result: ReconcileResult, path: string, fileOk: bool, database: bool,
                          saved: Written, fault: Fault)
      returns (ok: bool)
      requires c !in txs
      modifies this
      ensures ok <==>
        fileOk && (!database || (saved == Acknowledged
                                 && (fault == NoFault || (fault.InsertFails? && fault.at >= Listed(result)))))
      ensures reports == if !fileOk || !database || saved == Failed then old(reports) else old(reports)[key := Report(
                if key in old(reports) then old(reports)[key].id else old(nextId),
                Summary(result.totalOrders, result.matchedOrders, |result.missingOrders|, |result.extraOrders|,
                        |result.amountMismatch|, result.success, path))]
      ensures ok && database ==> Replaced(old(details), details, c, reports[key].id, result)
      ensures View() == ApplyAll(old(View()),
                if !fileOk || !database || saved == Failed then []
                else if saved == AckLost then [SavesReport(key, result, path)]
                else [SavesReport(key, result, path)] + DetailWrites(c, key, result, fault))
    {
      ghost var s0 := View();
      ghost var save := SavesReport(key, result, path);
      ApplyWrites(s0, save, save);
      ApplyAppend(s0, [save], DetailWrites(c, key, result, fault));
      hide ApplyAll, Differences, DetailWrites, Committed, Replaced;
      if !fileOk {
        return false;
      }
      if !database {
        return true;
      }
      var id := SaveReport(key, result, path, saved);
      assert saved != Failed ==> View() == Apply(s0, save);
      if id.None? {
        return false;
      }
      ok := SaveReportDetails(c, id.value, key, result, fault);
    }
  }
}
