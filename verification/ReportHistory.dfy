/** What a reports table holds after any interleaving of GenerateReport calls, said of the order in which
    their DELETEs and COMMITs happened. */
module ReportHistory {
  import opened Prelude
  import opened Reconcile
  import opened ReportStore

  // ----- the order of DELETEs and COMMITs -----

  /** A detail transaction: how many transactions had committed when it issued its DELETE. */
  datatype Started = Started(key: Key, result: ReconcileResult, base: nat)

  datatype History = History(started: map<CallId, Started>, committed: seq<CallId>)

  ghost predicate Sensible(h: History) {
    && (forall c :: c in h.started ==> h.started[c].base <= |h.committed|)
    && (forall i :: 0 <= i < |h.committed| ==> h.committed[i] in h.started && h.started[h.committed[i]].base <= i)
    && (forall i, j :: 0 <= i < j < |h.committed| ==> h.committed[i] != h.committed[j])
  }

  /** The last upsert of the key, if any. */
  function LastSaved(writes: seq<Write>, key: Key): (last: Option<Write>)
    ensures last.Some? ==> last.value.SavesReport? && last.value.key == key
  {
    if writes == [] then None
    else
      var w := writes[|writes| - 1];
      if w.SavesReport? && w.key == key then Some(w) else LastSaved(writes[..|writes| - 1], key)
  }

  /** What a write adds. A call deletes details only of a report that is saved, and commits once. */
  function Note(h: History, w: Write, saved: bool): History {
    match w
    case SavesReport(_, _, _) => h
    case Deletes(c, key, result) =>
      if !saved || c in h.started then h else h.(started := h.started[c := Started(key, result, |h.committed|)])
    case Commits(c) => if c !in h.started || c in h.committed then h else h.(committed := h.committed + [c])
  }

  function Past(writes: seq<Write>): (h: History)
    ensures Sensible(h)
  {
    if writes == [] then History(map[], [])
    else
      var init, w := writes[..|writes| - 1], writes[|writes| - 1];
      Note(Past(init), w, w.Deletes? && LastSaved(init, w.key).Some?)
  }

  function KeyAt(h: History, i: int): Key
    requires Sensible(h) && 0 <= i < |h.committed|
  {
    h.started[h.committed[i]].key
  }

  function BaseAt(h: History, i: int): nat
    requires Sensible(h) && 0 <= i < |h.committed|
  {
    h.started[h.committed[i]].base
  }

  /** No committed transaction of the same report issued its DELETE after the i-th commit. */
  predicate Survives(h: History, i: int)
    requires Sensible(h) && 0 <= i < |h.committed|
  {
    forall j :: 0 <= j < |h.committed| && KeyAt(h, j) == KeyAt(h, i) ==> BaseAt(h, j) <= i
  }

  /** The rows of the i-th commit, if they survive. */
  function Block(reports: map<Key, Report>, h: History, i: int): seq<Detail>
    requires Sensible(h) && 0 <= i < |h.committed| && KeyAt(h, i) in reports
  {
    if Survives(h, i)
    then Rows(reports[KeyAt(h, i)].id, h.committed[i], Differences(h.started[h.committed[i]].result)) else []
  }

  /** The rows of the first n commits that survive, in the order of the commits. */
  function Collect(reports: map<Key, Report>, h: History, n: nat): seq<Detail>
    requires Sensible(h) && n <= |h.committed|
    requires forall c :: c in h.started ==> h.started[c].key in reports
  {
    if n == 0 then [] else Collect(reports, h, n - 1) + Block(reports, h, n - 1)
  }

  // ----- the table against the order -----

  /** What an open transaction has deleted: rows of earlier commits of its report, among them all that are
      still there. */
  ghost predicate Captured(h: History, c: CallId, seen: set<CallId>)
    requires Sensible(h) && c in h.started
  {
    && (forall x :: x in seen ==>
          exists i :: 0 <= i < h.started[c].base && h.committed[i] == x && KeyAt(h, i) == h.started[c].key)
    && (forall i :: 0 <= i < h.started[c].base ==>
          KeyAt(h, i) == h.started[c].key && Survives(h, i) && Differences(h.started[h.committed[i]].result) != [] ==>
            h.committed[i] in seen)
  }

  ghost predicate TxMatches(s: Store, h: History, c: CallId)
    requires Sensible(h) && c in h.started
  {
    var b := h.started[c];
    && c in s.txs && b.key in s.reports && s.txs[c].reportId == s.reports[b.key].id && s.txs[c].result == b.result
    && (s.txs[c].committed <==> c in h.committed)
    && (c !in h.committed ==> Captured(h, c, s.txs[c].seen))
  }

  ghost predicate Agrees(s: Store, h: History)
    requires Sensible(h)
  {
    && WellKeyed(s)
    && s.txs.Keys == h.started.Keys
    && (forall c :: c in h.started ==> TxMatches(s, h, c))
    && s.details == Collect(s.reports, h, |h.committed|)
  }

  lemma {:induction false} RowAt(id: nat, c: CallId, ds: seq<Difference>, d: Detail)
    ensures d in Rows(id, c, ds) ==> d.reportId == id && d.writer == c && d.difference in ds
    ensures ds != [] ==> Rows(id, c, ds) != [] && Detail(id, c, ds[0]) in Rows(id, c, ds)
  {
    if ds != [] {
      assert Rows(id, c, ds)[0] == Detail(id, c, ds[0]);
    }
  }

  /** Whose rows are in the table. */
  lemma {:induction false} CollectHolds(reports: map<Key, Report>, h: History, n: nat, d: Detail)
    requires Sensible(h) && n <= |h.committed|
    requires forall c :: c in h.started ==> h.started[c].key in reports
    ensures d in Collect(reports, h, n) ==>
      exists i :: 0 <= i < n && Survives(h, i) && d.writer == h.committed[i] && d.reportId == reports[KeyAt(h, i)].id
  {
    hide Differences, Rows, Survives;
    if n > 0 {
      var c := h.committed[n - 1];
      CollectHolds(reports, h, n - 1, d);
      RowAt(reports[h.started[c].key].id, c, Differences(h.started[c].result), d);
      assert KeyAt(h, n - 1) == h.started[c].key;
    }
  }

  lemma {:induction false} CollectHas(reports: map<Key, Report>, h: History, n: nat, i: int) returns (d: Detail)
    requires Sensible(h) && n <= |h.committed| && 0 <= i < n && Survives(h, i)
    requires forall c :: c in h.started ==> h.started[c].key in reports
    requires Differences(h.started[h.committed[i]].result) != []
    ensures d in Collect(reports, h, n) && d.writer == h.committed[i] && d.reportId == reports[KeyAt(h, i)].id
  {
    hide Differences, Rows, Survives;
    var c := h.committed[i];
    if i == n - 1 {
      var ds := Differences(h.started[c].result);
      d := Detail(reports[h.started[c].key].id, c, ds[0]);
      RowAt(reports[h.started[c].key].id, c, ds, d);
    } else {
      d := CollectHas(reports, h, n - 1, i);
    }
  }

  // ----- an upsert -----

  lemma {:induction false} CollectSameIds(before: map<Key, Report>, after: map<Key, Report>, h: History, n: nat)
    requires Sensible(h) && n <= |h.committed| && SameIds(before, after)
    requires forall c :: c in h.started ==> h.started[c].key in before
    ensures Collect(before, h, n) == Collect(after, h, n)
  {
    hide Differences, Rows, Survives;
    if n > 0 {
      CollectSameIds(before, after, h, n - 1);
    }
  }

  lemma {:induction false} SaveAgrees(s: Store, h: History, key: Key, result: ReconcileResult, path: string)
    requires Sensible(h) && Agrees(s, h)
    ensures Agrees(Apply(s, SavesReport(key, result, path)), h)
  {
    var s' := Apply(s, SavesReport(key, result, path));
    ApplyKeepsKeys(s, SavesReport(key, result, path));
    hide Differences, Rows, Survives, SummaryOf, Captured, WellKeyed;
    CollectSameIds(s.reports, s'.reports, h, |h.committed|);
    hide Collect;
    forall c | c in h.started
      ensures TxMatches(s', h, c)
    {
      assert TxMatches(s, h, c);
    }
  }

  // ----- a DELETE -----

  lemma {:induction false} CollectMoreStarted(reports: map<Key, Report>, h: History, h': History, n: nat)
    requires Sensible(h) && Sensible(h') && n <= |h.committed| && h.committed == h'.committed
    requires forall c :: c in h.started ==> c in h'.started && h'.started[c] == h.started[c]
    requires forall c :: c in h'.started ==> h'.started[c].key in reports
    ensures Collect(reports, h, n) == Collect(reports, h', n)
  {
    hide Differences, Rows, Survives;
    if n > 0 {
      CollectMoreStarted(reports, h, h', n - 1);
      SurvivesMoreStarted(h, h', n - 1);
    }
  }

  lemma {:induction false} SurvivesMoreStarted(h: History, h': History, i: int)
    requires Sensible(h) && Sensible(h') && 0 <= i < |h.committed| && h.committed == h'.committed
    requires forall c :: c in h.started ==> c in h'.started && h'.started[c] == h.started[c]
    ensures Survives(h, i) == Survives(h', i)
  {
    assert forall j :: 0 <= j < |h.committed| ==> KeyAt(h, j) == KeyAt(h', j) && BaseAt(h, j) == BaseAt(h', j);
  }

  lemma {:induction false} CapturedMoreStarted(h: History, h': History, c: CallId, seen: set<CallId>)
    requires Sensible(h) && Sensible(h') && h.committed == h'.committed && c in h.started
    requires forall x :: x in h.started ==> x in h'.started && h'.started[x] == h.started[x]
    requires Captured(h, c, seen)
    ensures Captured(h', c, seen)
  {
    hide Differences;
    assert forall j :: 0 <= j < |h.committed| ==> KeyAt(h, j) == KeyAt(h', j);
    forall i | 0 <= i < |h.committed|
      ensures Survives(h, i) == Survives(h', i)
    {
      SurvivesMoreStarted(h, h', i);
    }
    hide Survives;
  }

  lemma {:induction false} DeleteCaptures(s: Store, h: History, h': History, c: CallId, key: Key,
                                          result: ReconcileResult)
    requires Sensible(h) && Agrees(s, h) && c !in h.started && key in s.reports
    requires h' == h.(started := h.started[c := Started(key, result, |h.committed|)]) && Sensible(h')
    ensures Captured(h', c, Seen(s.details, s.reports[key].id))
  {
    var id, n := s.reports[key].id, |h.committed|;
    forall k | k in h.started
      ensures h.started[k].key in s.reports
    {
      assert TxMatches(s, h, k);
    }
    CollectMoreStarted(s.reports, h, h', n);
    hide Differences, Rows, Survives;
    forall x | x in Seen(s.details, id)
      ensures exists i :: 0 <= i < n && h'.committed[i] == x && KeyAt(h', i) == key
    {
      var d :| d in s.details && d.reportId == id && d.writer == x;
      CollectHolds(s.reports, h', n, d);
    }
    forall i | 0 <= i < n && KeyAt(h', i) == key && Survives(h', i)
        && Differences(h'.started[h'.committed[i]].result) != []
      ensures h'.committed[i] in Seen(s.details, id)
    {
      var d := CollectHas(s.reports, h', n, i);
    }
  }

  lemma {:induction false} TxDelete(s: Store, s': Store, h: History, h': History, c: CallId, k: CallId)
    requires Sensible(h) && Sensible(h') && k in h.started && c !in h.started && TxMatches(s, h, k)
    requires s'.reports == s.reports && c in s'.txs && s'.txs == s.txs[c := s'.txs[c]]
    requires c in h'.started && h' == h.(started := h.started[c := h'.started[c]])
    ensures TxMatches(s', h', k)
  {
    if k !in h.committed {
      CapturedMoreStarted(h, h', k, s.txs[k].seen);
    }
    hide Captured;
  }

  lemma {:induction false} EachStarted(s: Store, h: History)
    requires Sensible(h) && Agrees(s, h)
    ensures WellKeyed(s) && s.txs.Keys == h.started.Keys
    ensures forall k :: k in h.started ==> k in s.txs && h.started[k].key in s.reports && TxMatches(s, h, k)
    ensures s.details == Collect(s.reports, h, |h.committed|)
  {
    hide Collect;
    forall k | k in h.started
      ensures h.started[k].key in s.reports && TxMatches(s, h, k)
    {
      assert TxMatches(s, h, k);
    }
  }

  lemma {:induction false} NewTx(s: Store, s': Store, h: History, h': History, c: CallId, key: Key,
                                 result: ReconcileResult)
    requires Sensible(h) && Sensible(h') && c !in h.started && key in s.reports
    requires h' == h.(started := h.started[c := Started(key, result, |h.committed|)])
    requires s' == Delete(s, c, s.reports[key].id, result) && Captured(h', c, Seen(s.details, s.reports[key].id))
    ensures TxMatches(s', h', c)
    ensures s'.reports == s.reports && s'.nextId == s.nextId && s'.details == s.details
    ensures c in s'.txs && s'.txs == s.txs[c := s'.txs[c]]
  {
    hide Captured, Seen, Differences;
  }

  /** A DELETE that takes effect. */
  lemma {:induction false} DeleteOnce(s: Store, h: History, h': History, c: CallId, key: Key, result: ReconcileResult)
    requires Sensible(h) && Sensible(h') && Agrees(s, h) && c !in h.started && key in s.reports
    requires h' == h.(started := h.started[c := Started(key, result, |h.committed|)])
    ensures Agrees(Delete(s, c, s.reports[key].id, result), h')
  {
    hide *;
    var s' := Delete(s, c, s.reports[key].id, result);
    DeleteCaptures(s, h, h', c, key, result);
    EachStarted(s, h);
    NewTx(s, s', h, h', c, key, result);
    forall k | k in h'.started
      ensures h'.started[k].key in s.reports && TxMatches(s', h', k)
    {
      if k != c {
        TxDelete(s, s', h, h', c, k);
      }
    }
    CollectMoreStarted(s.reports, h, h', |h.committed|);
    SameKeyed(s, s');
    AllAgrees(s', h');
  }

  lemma {:induction false} SameKeyed(s: Store, s': Store)
    requires WellKeyed(s) && s'.reports == s.reports && s'.nextId == s.nextId
    ensures WellKeyed(s')
  {
  }

  lemma {:induction false} AllAgrees(s: Store, h: History)
    requires Sensible(h) && WellKeyed(s) && s.txs.Keys == h.started.Keys
    requires forall k :: k in h.started ==> h.started[k].key in s.reports && TxMatches(s, h, k)
    requires s.details == Collect(s.reports, h, |h.committed|)
    ensures Agrees(s, h)
  {
    hide TxMatches, Collect, WellKeyed;
  }

  lemma {:induction false} DeleteAgrees(s: Store, h: History, c: CallId, key: Key, result: ReconcileResult)
    requires Sensible(h) && Agrees(s, h)
    ensures Sensible(Note(h, Deletes(c, key, result), key in s.reports))
    ensures Agrees(Apply(s, Deletes(c, key, result)), Note(h, Deletes(c, key, result), key in s.reports))
  {
    hide Delete, Collect, TxMatches;
    if key in s.reports && c !in h.started {
      DeleteOnce(s, h, Note(h, Deletes(c, key, result), true), c, key, result);
    }
  }

  // ----- a COMMIT -----

  lemma {:induction false} WithoutAppend(a: seq<Detail>, b: seq<Detail>, id: nat, seen: set<CallId>)
    ensures Without(a + b, id, seen) == Without(a, id, seen) + Without(b, id, seen)
  {
    if b == [] {
      assert a + b == a;
      assert Without(a, id, seen) + [] == Without(a, id, seen);
    } else {
      WithoutAppend(a, b[..|b| - 1], id, seen);
      assert (a + b)[..|a + b| - 1] == a + b[..|b| - 1];
    }
  }

  lemma {:induction false} WithoutRows(own: nat, c: CallId, ds: seq<Difference>, id: nat, seen: set<CallId>)
    ensures Without(Rows(own, c, ds), id, seen) == if own == id && c in seen then [] else Rows(own, c, ds)
  {
    var rows := Rows(own, c, ds);
    if ds != [] {
      WithoutRows(own, c, ds[..|ds| - 1], id, seen);
      assert rows[..|rows| - 1] == Rows(own, c, ds[..|ds| - 1]);
      assert rows == rows[..|rows| - 1] + [Detail(own, c, ds[|ds| - 1])];
    }
  }

  /** A further commit ends the earlier ones of its report that its DELETE saw. */
  lemma {:induction false} SurvivesCommit(h: History, h': History, c: CallId, i: int)
    requires Sensible(h) && Sensible(h') && c in h.started && 0 <= i < |h.committed|
    requires h' == h.(committed := h.committed + [c])
    ensures Survives(h', i) <==> Survives(h, i) && (KeyAt(h, i) == h.started[c].key ==> h.started[c].base <= i)
    ensures KeyAt(h', i) == KeyAt(h, i)
  {
    var n := |h.committed|;
    assert forall j :: 0 <= j < n ==> KeyAt(h', j) == KeyAt(h, j) && BaseAt(h', j) == BaseAt(h, j);
    assert KeyAt(h', n) == h.started[c].key && BaseAt(h', n) == h.started[c].base;
  }

  lemma {:induction false} CollectCommit(s: Store, h: History, h': History, c: CallId, n: nat)
    requires Sensible(h) && Sensible(h') && Agrees(s, h) && c in h.started && c !in h.committed
    requires h' == h.(committed := h.committed + [c]) && n <= |h.committed|
    requires forall k :: k in h.started ==> h.started[k].key in s.reports
    requires c in s.txs
    ensures Without(Collect(s.reports, h, n), s.txs[c].reportId, s.txs[c].seen) == Collect(s.reports, h', n)
  {
    hide Without, Block, Agrees;
    var id, seen := s.txs[c].reportId, s.txs[c].seen;
    NothingWithout(id, seen);
    if n > 0 {
      CollectCommit(s, h, h', c, n - 1);
      BlockCommit(s, h, h', c, n - 1);
      WithoutAppend(Collect(s.reports, h, n - 1), Block(s.reports, h, n - 1), id, seen);
    }
  }

  lemma {:induction false} NothingWithout(id: nat, seen: set<CallId>)
    ensures Without([], id, seen) == []
  {
  }

  lemma {:induction false} BlockCommit(s: Store, h: History, h': History, c: CallId, i: int)
    requires Sensible(h) && Sensible(h') && Agrees(s, h) && c in h.started && c !in h.committed
    requires h' == h.(committed := h.committed + [c]) && 0 <= i < |h.committed|
    requires forall k :: k in h.started ==> h.started[k].key in s.reports
    ensures KeyAt(h', i) == KeyAt(h, i)
    ensures Without(Block(s.reports, h, i), s.txs[c].reportId, s.txs[c].seen) == Block(s.reports, h', i)
  {
    hide Collect, Differences;
    SurvivesCommit(h, h', c, i);
    assert TxMatches(s, h, c);
    var x, tx := h.committed[i], s.txs[c];
    var ds := Differences(h.started[x].result);
    WithoutRows(s.reports[KeyAt(h, i)].id, x, ds, tx.reportId, tx.seen);
    hide Survives;
    NothingWithout(tx.reportId, tx.seen);
    if KeyAt(h, i) == h.started[c].key && x in tx.seen {
      var k :| 0 <= k < h.started[c].base && h.committed[k] == x;
      assert k == i;
    }
    assert ds == [] ==> Rows(s.reports[KeyAt(h, i)].id, x, ds) == [];
  }

  lemma {:induction false} CapturedCommit(h: History, h': History, c: CallId, k: CallId, seen: set<CallId>)
    requires Sensible(h) && Sensible(h') && c in h.started && k in h.started
    requires h' == h.(committed := h.committed + [c]) && Captured(h, k, seen)
    ensures Captured(h', k, seen)
  {
    hide Differences;
    forall i | 0 <= i < |h.committed|
      ensures KeyAt(h', i) == KeyAt(h, i) && (Survives(h', i) ==> Survives(h, i))
    {
      SurvivesCommit(h, h', c, i);
    }
    hide Survives;
  }

  /** A commit keeps what is known of every transaction. */
  lemma {:induction false} TxCommit(s: Store, s': Store, h: History, h': History, c: CallId, k: CallId)
    requires Sensible(h) && Sensible(h') && c in h.started && k in h.started && c !in h.committed
    requires TxMatches(s, h, k) && TxMatches(s, h, c) && s'.reports == s.reports
    requires s'.txs == s.txs[c := s.txs[c].(committed := true)]
    requires h' == h.(committed := h.committed + [c])
    ensures TxMatches(s', h', k)
  {
    if k !in h.committed {
      CapturedCommit(h, h', c, k, s.txs[k].seen);
    }
    hide Captured;
    assert h'.committed[|h.committed|] == c;
  }

  lemma {:induction false} DetailsCommit(s: Store, h: History, h': History, c: CallId)
    requires Sensible(h) && Sensible(h') && Agrees(s, h) && c in h.started && c !in h.committed
    requires h' == h.(committed := h.committed + [c])
    requires forall k :: k in h.started ==> h.started[k].key in s.reports
    requires TxMatches(s, h, c)
    ensures Commit(s, c).details == Collect(s.reports, h', |h'.committed|)
  {
    var n := |h.committed|;
    CollectCommit(s, h, h', c, n);
    assert Survives(h', n) by {
      assert forall j :: 0 <= j < |h'.committed| ==> BaseAt(h', j) <= n;
    }
    assert h'.committed[n] == c;
    hide Survives, Without, Rows, Differences, Captured;
    assert Block(s.reports, h', n) == Rows(s.txs[c].reportId, c, Differences(s.txs[c].result));
  }

  lemma {:induction false} CommitMeans(s: Store, c: CallId)
    requires c in s.txs
    ensures
      var s' := Commit(s, c);
      s'.reports == s.reports && s'.nextId == s.nextId && s'.txs == s.txs[c := s.txs[c].(committed := true)]
  {
  }

  /** A commit that takes effect. */
  lemma {:induction false} CommitOnce(s: Store, h: History, h': History, c: CallId)
    requires Sensible(h) && Sensible(h') && Agrees(s, h) && c in h.started && c !in h.committed && c in s.txs
    requires h' == h.(committed := h.committed + [c])
    ensures Agrees(Commit(s, c), h')
  {
    hide *;
    EachStarted(s, h);
    CommitMeans(s, c);
    DetailsCommit(s, h, h', c);
    var s' := Commit(s, c);
    forall k | k in h'.started
      ensures h'.started[k].key in s'.reports && TxMatches(s', h', k)
    {
      TxCommit(s, s', h, h', c, k);
    }
    SameKeyed(s, s');
    AllAgrees(s', h');
  }

  lemma {:induction false} CommitAgrees(s: Store, h: History, c: CallId)
    requires Sensible(h) && Agrees(s, h)
    ensures Sensible(Note(h, Commits(c), false)) && Agrees(Apply(s, Commits(c)), Note(h, Commits(c), false))
  {
    EachStarted(s, h);
    if c in h.started {
      assert TxMatches(s, h, c);
      hide Commit, Collect, Captured;
      if c !in h.committed {
        hide TxMatches;
        CommitOnce(s, h, Note(h, Commits(c), false), c);
      }
      hide Agrees;
    }
  }

  // ----- the whole run -----

  lemma {:induction false} ReportsOfRun(writes: seq<Write>, key: Key)
    ensures StoredSummary(ApplyAll(Empty, writes), key) == match LastSaved(writes, key)
                                                           case Some(w) => Some(SummaryOf(w.result, w.path))
                                                           case None => None
  {
    hide Delete, Commit, SummaryOf;
    if writes != [] {
      ReportsOfRun(writes[..|writes| - 1], key);
      SummaryStep(ApplyAll(Empty, writes[..|writes| - 1]), writes[|writes| - 1], key);
      hide Apply, StoredSummary;
    }
  }

  lemma {:induction false} SummaryStep(s: Store, w: Write, key: Key)
    ensures StoredSummary(Apply(s, w), key)
            == if w.SavesReport? && w.key == key then Some(SummaryOf(w.result, w.path)) else StoredSummary(s, key)
  {
    hide Differences, Without, Rows, Seen, SummaryOf;
  }

  lemma {:induction false} RunAgrees(writes: seq<Write>)
    ensures Agrees(ApplyAll(Empty, writes), Past(writes))
  {
    hide Apply, Agrees, Sensible, StoredSummary;
    if writes == [] {
      NothingAgrees();
    } else {
      var init, w := writes[..|writes| - 1], writes[|writes| - 1];
      var s, h := ApplyAll(Empty, init), Past(init);
      RunAgrees(init);
      match w {
        case SavesReport(key, result, path) => SaveAgrees(s, h, key, result, path);
        case Deletes(c, key, result) =>
          ReportsOfRun(init, key);
          SavedMeans(s, key);
          DeleteAgrees(s, h, c, key, result);
        case Commits(c) => CommitAgrees(s, h, c);
      }
    }
  }

  lemma {:induction false} SavedMeans(s: Store, key: Key)
    ensures StoredSummary(s, key).Some? <==> key in s.reports
  {
  }

  lemma {:induction false} NothingAgrees()
    ensures Sensible(History(map[], [])) && Agrees(Empty, History(map[], []))
  {
  }

  // ----- which rows are stored -----

  ghost predicate StillThere(h: History, c: CallId, n: nat)
    requires Sensible(h) && n <= |h.committed|
  {
    exists i :: 0 <= i < n && h.committed[i] == c && Survives(h, i)
  }

  lemma {:induction false} RowsByAppend(a: seq<Detail>, b: seq<Detail>, c: CallId)
    ensures RowsBy(a + b, c) == RowsBy(a, c) + RowsBy(b, c)
  {
    if b == [] {
      assert a + b == a;
      assert RowsBy(a, c) + [] == RowsBy(a, c);
    } else {
      RowsByAppend(a, b[..|b| - 1], c);
      assert (a + b)[..|a + b| - 1] == a + b[..|b| - 1];
    }
  }

  lemma {:induction false} RowsByRows(id: nat, x: CallId, ds: seq<Difference>, c: CallId)
    ensures RowsBy(Rows(id, x, ds), c) == if x == c then ds else []
  {
    var rows := Rows(id, x, ds);
    if ds != [] {
      var init := ds[..|ds| - 1];
      RowsByRows(id, x, init, c);
      assert rows[..|rows| - 1] == Rows(id, x, init);
      assert init + [ds[|ds| - 1]] == ds;
    }
  }

  lemma {:induction false} NoRows(c: CallId)
    ensures RowsBy([], c) == []
  {
  }

  lemma {:induction false} CollectRowsBy(reports: map<Key, Report>, h: History, n: nat, c: CallId)
    requires Sensible(h) && n <= |h.committed| && c in h.started
    requires forall k :: k in h.started ==> h.started[k].key in reports
    ensures RowsBy(Collect(reports, h, n), c) == if StillThere(h, c, n) then Differences(h.started[c].result) else []
  {
    hide Differences, Rows, Survives, RowsBy;
    NoRows(c);
    if n > 0 {
      var x := h.committed[n - 1];
      CollectRowsBy(reports, h, n - 1, c);
      RowsByAppend(Collect(reports, h, n - 1), Block(reports, h, n - 1), c);
      RowsByRows(reports[KeyAt(h, n - 1)].id, x, Differences(h.started[x].result), c);
      assert StillThere(h, c, n) <==> StillThere(h, c, n - 1) || (x == c && Survives(h, n - 1));
    }
  }

  /** In any interleaving, the rows of a call are in the table exactly when it committed and no committed
      call of the same report issued its DELETE after that commit; and then all of them are. */
  lemma {:induction false} RowsStoredExactlyWhen(writes: seq<Write>, c: CallId)
    requires c in Past(writes).started
    ensures
      var h := Past(writes);
      RowsBy(ApplyAll(Empty, writes).details, c)
      == if StillThere(h, c, |h.committed|) then Differences(h.started[c].result) else []
  {
    var s, h := ApplyAll(Empty, writes), Past(writes);
    RunAgrees(writes);
    EachStarted(s, h);
    hide *;
    CollectRowsBy(s.reports, h, |h.committed|, c);
  }

  // ----- what is stored under a key -----

  /** The differences of the first n commits that survive under the key. */
  function Survivors(h: History, key: Key, n: nat): seq<Difference>
    requires Sensible(h) && n <= |h.committed|
  {
    if n == 0 then []
    else
      Survivors(h, key, n - 1)
      + if KeyAt(h, n - 1) == key && Survives(h, n - 1)
        then Differences(h.started[h.committed[n - 1]].result) else []
  }

  lemma {:induction false} DetailsOfAppend(a: seq<Detail>, b: seq<Detail>, id: nat)
    ensures DetailsOf(a + b, id) == DetailsOf(a, id) + DetailsOf(b, id)
  {
    if b == [] {
      assert a + b == a;
      assert DetailsOf(a, id) + [] == DetailsOf(a, id);
    } else {
      DetailsOfAppend(a, b[..|b| - 1], id);
      assert (a + b)[..|a + b| - 1] == a + b[..|b| - 1];
    }
  }

  lemma {:induction false} DetailsOfRows(own: nat, c: CallId, ds: seq<Difference>, id: nat)
    ensures DetailsOf(Rows(own, c, ds), id) == if own == id then ds else []
    ensures DetailsOf([], id) == []
  {
    var rows := Rows(own, c, ds);
    if ds != [] {
      var init := ds[..|ds| - 1];
      DetailsOfRows(own, c, init, id);
      assert rows[..|rows| - 1] == Rows(own, c, init);
      assert init + [ds[|ds| - 1]] == ds;
    }
  }

  lemma {:induction false} CollectUnder(s: Store, h: History, key: Key, n: nat)
    requires Sensible(h) && WellKeyed(s) && n <= |h.committed| && key in s.reports
    requires forall k :: k in h.started ==> h.started[k].key in s.reports
    ensures DetailsOf(Collect(s.reports, h, n), s.reports[key].id) == Survivors(h, key, n)
  {
    hide Differences, Rows, Survives, DetailsOf;
    var id := s.reports[key].id;
    if n == 0 {
      DetailsOfRows(id, 0, [], id);
    } else {
      var x := h.committed[n - 1];
      CollectUnder(s, h, key, n - 1);
      DetailsOfAppend(Collect(s.reports, h, n - 1), Block(s.reports, h, n - 1), id);
      DetailsOfRows(s.reports[KeyAt(h, n - 1)].id, x, Differences(h.started[x].result), id);
    }
  }

  lemma {:induction false} NoneUnder(h: History, key: Key, n: nat)
    requires Sensible(h) && n <= |h.committed| && forall k :: k in h.started ==> h.started[k].key != key
    ensures Survivors(h, key, n) == []
  {
    if n > 0 {
      NoneUnder(h, key, n - 1);
    }
  }

  /** However calls interleave and wherever they fail, a key holds the summary of its last upsert, and the
      details of the committed transactions that no later DELETE of a committed one met. */
  lemma {:induction false} LastWriteWins(writes: seq<Write>, key: Key)
    ensures StoredSummary(ApplyAll(Empty, writes), key) == match LastSaved(writes, key)
                                                           case Some(w) => Some(SummaryOf(w.result, w.path))
                                                           case None => None
    ensures StoredDetails(ApplyAll(Empty, writes), key) == Survivors(Past(writes), key, |Past(writes).committed|)
  {
    var s, h := ApplyAll(Empty, writes), Past(writes);
    ReportsOfRun(writes, key);
    RunAgrees(writes);
    EachStarted(s, h);
    hide Agrees, Survivors, Collect, Past, ApplyAll, DetailsOf, TxMatches, WellKeyed;
    if key in s.reports {
      CollectUnder(s, h, key, |h.committed|);
    } else {
      NoneUnder(h, key, |h.committed|);
    }
  }

  /** The surviving rows of each type. */
  function SurvivorCounts(h: History, key: Key, n: nat): Counts
    requires Sensible(h) && n <= |h.committed|
  {
    if n == 0 then NONE
    else
      var before := SurvivorCounts(h, key, n - 1);
      if KeyAt(h, n - 1) == key && Survives(h, n - 1)
      then before.Plus(CountsIn(h.started[h.committed[n - 1]].result)) else before
  }

  lemma {:induction false} CountsOfSurvivors(h: History, key: Key, n: nat)
    requires Sensible(h) && n <= |h.committed|
    ensures CountsOf(Survivors(h, key, n)) == SurvivorCounts(h, key, n)
  {
    hide Differences, CountsOf, CountsIn, Survives;
    CountsNothing();
    if n > 0 {
      var result := h.started[h.committed[n - 1]].result;
      CountsOfSurvivors(h, key, n - 1);
      CountsAppend(Survivors(h, key, n - 1), Differences(result));
      CountsOfDifferences(result);
      assert Survivors(h, key, n - 1) + [] == Survivors(h, key, n - 1);
    }
  }

  /** Each key has one report row of its own, whose counts are the numbers of its detail rows of each type
      exactly when its last upsert carries the counts of all surviving transactions taken together. */
  lemma {:induction false} ReportCountsItsDetails(writes: seq<Write>, key: Key)
    requires LastSaved(writes, key).Some?
    ensures
      var s, h := ApplyAll(Empty, writes), Past(writes);
      && key in s.reports
      && (forall k :: k in s.reports && s.reports[k].id == s.reports[key].id ==> k == key)
      && (CountsAgree(s.reports[key].summary, StoredDetails(s, key)) <==>
            CountsIn(LastSaved(writes, key).value.result) == SurvivorCounts(h, key, |h.committed|))
  {
    var s, h := ApplyAll(Empty, writes), Past(writes);
    LastWriteWins(writes, key);
    RunAgrees(writes);
    EachStarted(s, h);
    CountsOfSurvivors(h, key, |h.committed|);
    hide Agrees, Survivors, Collect, Past, ApplyAll, TxMatches, CountsOf, StoredDetails, SurvivorCounts;
  }

  // ----- writes of other reports, and of the other half -----

  /** h' adds to h no commit of the key. */
  ghost predicate Extends(h: History, h': History, key: Key)
    requires Sensible(h) && Sensible(h')
  {
    && |h.committed| <= |h'.committed| && h'.committed[..|h.committed|] == h.committed
    && (forall c :: c in h.started ==> c in h'.started && h'.started[c] == h.started[c])
    && (forall i :: |h.committed| <= i < |h'.committed| ==> KeyAt(h', i) != key)
  }

  lemma {:induction false} SameAt(h: History, h': History, key: Key, i: int)
    requires Sensible(h) && Sensible(h') && Extends(h, h', key) && 0 <= i < |h.committed|
    ensures h'.committed[i] == h.committed[i] && KeyAt(h', i) == KeyAt(h, i) && BaseAt(h', i) == BaseAt(h, i)
    ensures KeyAt(h, i) == key ==> Survives(h', i) == Survives(h, i)
  {
    forall j | 0 <= j < |h.committed|
      ensures KeyAt(h', j) == KeyAt(h, j) && BaseAt(h', j) == BaseAt(h, j)
    {
      assert h'.committed[..|h.committed|][j] == h'.committed[j];
    }
  }

  lemma {:induction false} ExtensionKeeps(h: History, h': History, key: Key, n: nat)
    requires Sensible(h) && Sensible(h') && Extends(h, h', key) && n <= |h'.committed|
    ensures Survivors(h', key, n) == Survivors(h, key, if n <= |h.committed| then n else |h.committed|)
  {
    hide Differences, Survives;
    if n > 0 {
      ExtensionKeeps(h, h', key, n - 1);
      if n <= |h.committed| {
        SameAt(h, h', key, n - 1);
      } else {
        assert Survivors(h', key, n - 1) + [] == Survivors(h', key, n - 1);
      }
    }
  }

  /** The write commits a transaction of the key. */
  predicate CommitsOf(h: History, w: Write, key: Key) {
    w.Commits? && w.c in h.started && h.started[w.c].key == key
  }

  lemma {:induction false} NoteExtends(h: History, w: Write, saved: bool, key: Key)
    requires Sensible(h) && Sensible(Note(h, w, saved)) && !CommitsOf(h, w, key)
    ensures Extends(h, Note(h, w, saved), key)
  {
  }

  lemma {:induction false} Snoc(writes: seq<Write>, w: Write, key: Key)
    ensures ApplyAll(Empty, writes + [w]) == Apply(ApplyAll(Empty, writes), w)
    ensures Past(writes + [w]) == Note(Past(writes), w, w.Deletes? && LastSaved(writes, w.key).Some?)
    ensures LastSaved(writes + [w], key) == if w.SavesReport? && w.key == key then Some(w) else LastSaved(writes, key)
  {
    assert (writes + [w])[..|writes|] == writes;
  }

  /** After any run, an upsert changes the summary of its own key alone, and a commit the details of its own
      key alone; a DELETE changes nothing yet. */
  lemma {:induction false} ApplyStores(writes: seq<Write>, w: Write, key: Key)
    ensures
      var s, s' := ApplyAll(Empty, writes), ApplyAll(Empty, writes + [w]);
      && (!(w.SavesReport? && w.key == key) ==> StoredSummary(s', key) == StoredSummary(s, key))
      && (!CommitsOf(Past(writes), w, key) ==> StoredDetails(s', key) == StoredDetails(s, key))
  {
    Snoc(writes, w, key);
    LastWriteWins(writes, key);
    LastWriteWins(writes + [w], key);
    var h, h' := Past(writes), Past(writes + [w]);
    hide ApplyAll, Past, Survivors, StoredDetails, StoredSummary, LastSaved, SummaryOf, Apply;
    if !CommitsOf(h, w, key) {
      NoteExtends(h, w, w.Deletes? && LastSaved(writes, w.key).Some?, key);
      ExtensionKeeps(h, h', key, |h'.committed|);
    }
  }

  // ----- calls that do not overlap, and calls that do -----

  /** Nothing is written of the key: neither upserts nor DELETEs of it, nor commits of its transactions. */
  ghost predicate Quiet(h: History, more: seq<Write>, key: Key) {
    forall i :: 0 <= i < |more| ==>
      match more[i]
      case SavesReport(k, _, _) => k != key
      case Deletes(_, k, _) => k != key
      case Commits(c) => !CommitsOf(h, more[i], key)
  }

  /** No transaction of the key is in h' but those in h. */
  ghost predicate NoNewOf(h: History, h': History, key: Key) {
    forall c :: c in h'.started && h'.started[c].key == key ==> c in h.started
  }

  lemma {:induction false} QuietStep(h: History, mid: History, w: Write, saved: bool, key: Key)
    requires Sensible(h) && Sensible(mid) && Sensible(Note(mid, w, saved))
    requires Extends(h, mid, key) && NoNewOf(h, mid, key) && Quiet(h, [w], key)
    ensures Extends(h, Note(mid, w, saved), key) && NoNewOf(h, Note(mid, w, saved), key)
    ensures !(w.SavesReport? && w.key == key)
  {
    assert [w][0] == w;
    NoteExtends(mid, w, saved, key);
    ExtendsOn(h, mid, Note(mid, w, saved), key);
    hide Extends;
  }

  lemma {:induction false} QuietParts(h: History, more: seq<Write>, key: Key)
    requires Quiet(h, more, key) && more != []
    ensures Quiet(h, more[..|more| - 1], key) && Quiet(h, [more[|more| - 1]], key)
  {
  }

  lemma {:induction false} ExtendsItself(h: History, key: Key)
    requires Sensible(h)
    ensures Extends(h, h, key) && NoNewOf(h, h, key)
  {
  }

  lemma {:induction false} QuietExtends(writes: seq<Write>, more: seq<Write>, key: Key)
    requires Quiet(Past(writes), more, key)
    ensures Extends(Past(writes), Past(writes + more), key) && NoNewOf(Past(writes), Past(writes + more), key)
    ensures LastSaved(writes + more, key) == LastSaved(writes, key)
  {
    hide *;
    if more == [] {
      assert writes + more == writes;
      ExtendsItself(Past(writes), key);
    } else {
      var init, w := more[..|more| - 1], more[|more| - 1];
      QuietParts(Past(writes), more, key);
      QuietExtends(writes, init, key);
      Snoc(writes + init, w, key);
      assert writes + init + [w] == writes + more;
      QuietStep(Past(writes), Past(writes + init), w, w.Deletes? && LastSaved(writes + init, w.key).Some?, key);
    }
  }

  lemma {:induction false} ExtendsOn(a: History, b: History, c: History, key: Key)
    requires Sensible(a) && Sensible(b) && Sensible(c) && Extends(a, b, key) && Extends(b, c, key)
    ensures Extends(a, c, key)
  {
    var n := |a.committed|;
    assert c.committed[..|b.committed|][..n] == c.committed[..n];
    forall i | n <= i < |c.committed|
      ensures KeyAt(c, i) != key
    {
      if i < |b.committed| {
        SameAt(b, c, key, i);
      }
    }
  }

  /** A commit whose DELETE met all commits of its key so far is the only one to survive under it. */
  lemma {:induction false} OnlySurvivor(h: History, key: Key, c: CallId, n: nat)
    requires Sensible(h) && h.committed != [] && h.committed[|h.committed| - 1] == c && n < |h.committed|
    requires h.started[c].key == key
    requires forall i :: h.started[c].base <= i < |h.committed| - 1 ==> KeyAt(h, i) != key
    ensures Survivors(h, key, n) == [] && Survives(h, |h.committed| - 1)
    ensures Survivors(h, key, |h.committed|) == Survivors(h, key, |h.committed| - 1) + Differences(h.started[c].result)
  {
    var last := |h.committed| - 1;
    assert KeyAt(h, last) == key && BaseAt(h, last) == h.started[c].base;
    assert forall j :: 0 <= j < |h.committed| ==> BaseAt(h, j) <= j;
    if n > 0 {
      OnlySurvivor(h, key, c, n - 1);
    }
    assert Survives(h, last) by {
      assert KeyAt(h, last) == key;
    }
  }

  /** A call with no other write of its key from its upsert to the end leaves its own counts and details,
      which agree, whatever was written before: any sequence of regenerations that do not overlap leaves
      what its last one alone would. */
  lemma {:induction false} LastGenerationStands(before: seq<Write>, between: seq<Write>, mid: seq<Write>,
                                                after: seq<Write>, c: CallId, key: Key,
                                                result: ReconcileResult, path: string)
    requires
      var saved := before + [SavesReport(key, result, path)];
      var deleted := saved + between + [Deletes(c, key, result)];
      var committed := deleted + mid + [Commits(c)];
      && Quiet(Past(saved), between, key) && c !in Past(saved + between).started
      && Quiet(Past(deleted), mid, key) && Quiet(Past(committed), after, key)
    ensures
      var s := ApplyAll(Empty, before + [SavesReport(key, result, path)] + between + [Deletes(c, key, result)]
                               + mid + [Commits(c)] + after);
      && StoredSummary(s, key) == Some(SummaryOf(result, path)) && StoredDetails(s, key) == Differences(result)
      && CountsAgree(SummaryOf(result, path), StoredDetails(s, key))
  {
    hide *;
    var p1 := before + [SavesReport(key, result, path)] + between;
    var p2 := p1 + [Deletes(c, key, result)];
    var p3 := p2 + mid;
    var p4 := p3 + [Commits(c)];
    SaveNoted(before, key, result, path);
    QuietExtends(before + [SavesReport(key, result, path)], between, key);
    DeleteNoted(p1, c, key, result, key);
    QuietExtends(p2, mid, key);
    StillOpen(Past(p1), Past(p2), Past(p3), c, key, result);
    CommitNoted(p3, c, key);
    QuietExtends(p4, after, key);
    CommitStands(Past(p1), Past(p2), Past(p3), Past(p4), c, key, result);
    LastWriteWins(p4 + after, key);
    ExtendsLength(Past(p4), Past(p4 + after), key);
    ExtensionKeeps(Past(p4), Past(p4 + after), key, |Past(p4 + after).committed|);
    SavedCountsAgree(result, path);
  }

  lemma {:induction false} SavedCountsAgree(result: ReconcileResult, path: string)
    ensures CountsAgree(SummaryOf(result, path), Differences(result))
  {
    CountsOfDifferences(result);
  }

  lemma {:induction false} ExtendsLength(h: History, h': History, key: Key)
    requires Sensible(h) && Sensible(h') && Extends(h, h', key)
    ensures |h.committed| <= |h'.committed|
  {
  }

  lemma {:induction false} SaveNoted(writes: seq<Write>, key: Key, result: ReconcileResult, path: string)
    ensures Past(writes + [SavesReport(key, result, path)]) == Past(writes)
    ensures LastSaved(writes + [SavesReport(key, result, path)], key) == Some(SavesReport(key, result, path))
  {
    Snoc(writes, SavesReport(key, result, path), key);
  }

  lemma {:induction false} DeleteNoted(writes: seq<Write>, c: CallId, key: Key, result: ReconcileResult, other: Key)
    requires c !in Past(writes).started && LastSaved(writes, key).Some?
    ensures
      var h := Past(writes);
      Past(writes + [Deletes(c, key, result)])
      == h.(started := h.started[c := Started(key, result, |h.committed|)])
    ensures LastSaved(writes + [Deletes(c, key, result)], other) == LastSaved(writes, other)
  {
    Snoc(writes, Deletes(c, key, result), other);
  }

  lemma {:induction false} CommitNoted(writes: seq<Write>, c: CallId, other: Key)
    requires c in Past(writes).started && c !in Past(writes).committed
    ensures Past(writes + [Commits(c)]) == Past(writes).(committed := Past(writes).committed + [c])
    ensures LastSaved(writes + [Commits(c)], other) == LastSaved(writes, other)
  {
    Snoc(writes, Commits(c), other);
  }

  lemma {:induction false} StillOpen(h1: History, h2: History, h3: History, c: CallId, key: Key,
                                     result: ReconcileResult)
    requires Sensible(h1) && Sensible(h2) && Sensible(h3) && c !in h1.started && Extends(h2, h3, key)
    requires h2 == h1.(started := h1.started[c := Started(key, result, |h1.committed|)])
    ensures c in h3.started && c !in h3.committed && h3.started[c] == Started(key, result, |h1.committed|)
  {
    forall i | 0 <= i < |h3.committed|
      ensures h3.committed[i] != c
    {
      if i < |h1.committed| {
        assert h3.committed[..|h2.committed|][i] == h3.committed[i];
      } else {
        assert KeyAt(h3, i) != key;
      }
    }
  }

  lemma {:induction false} CommitStands(h1: History, h2: History, h3: History, h4: History,
                                        c: CallId, key: Key, result: ReconcileResult)
    requires Sensible(h1) && Sensible(h2) && Sensible(h3) && Sensible(h4) && Extends(h2, h3, key)
    requires h2 == h1.(started := h1.started[c := Started(key, result, |h1.committed|)])
    requires c in h3.started && h3.started[c] == Started(key, result, |h1.committed|)
    requires h4 == h3.(committed := h3.committed + [c])
    ensures Survivors(h4, key, |h4.committed|) == Differences(result)
  {
    hide Survives, Survivors, Differences;
    forall i | |h1.committed| <= i < |h4.committed| - 1
      ensures KeyAt(h4, i) != key
    {
      assert h4.committed[i] == h3.committed[i] && KeyAt(h3, i) != key;
    }
    OnlySurvivor(h4, key, c, |h4.committed| - 1);
    assert [] + Differences(result) == Differences(result);
  }

  /** Two calls for one key that have both saved the report row. */
  function BothSaved(key: Key, a: ReconcileResult, b: ReconcileResult, path: string): seq<Write> {
    [SavesReport(key, a, path)] + [SavesReport(key, b, path)]
  }

  lemma {:induction false} PastOfBothSaved(key: Key, a: ReconcileResult, b: ReconcileResult, path: string)
    ensures Past(BothSaved(key, a, b, path)) == History(map[], [])
    ensures LastSaved(BothSaved(key, a, b, path), key) == Some(SavesReport(key, b, path))
  {
    SaveNoted([], key, a, path);
    SaveNoted([SavesReport(key, a, path)], key, b, path);
    assert [] + [SavesReport(key, a, path)] == [SavesReport(key, a, path)];
  }

  function Mixed(key: Key, a: ReconcileResult, b: ReconcileResult, path: string): seq<Write> {
    BothSaved(key, a, b, path) + [Deletes(1, key, b)] + [Commits(1)] + [Deletes(0, key, a)] + [Commits(0)]
  }

  lemma {:induction false} PastOfMixed(key: Key, a: ReconcileResult, b: ReconcileResult, path: string)
    ensures Past(Mixed(key, a, b, path)) == History(map[1 := Started(key, b, 0), 0 := Started(key, a, 1)], [1, 0])
    ensures LastSaved(Mixed(key, a, b, path), key) == Some(SavesReport(key, b, path))
  {
    hide Past, LastSaved, BothSaved;
    var w0 := BothSaved(key, a, b, path);
    PastOfBothSaved(key, a, b, path);
    DeleteNoted(w0, 1, key, b, key);
    CommitNoted(w0 + [Deletes(1, key, b)], 1, key);
    DeleteNoted(w0 + [Deletes(1, key, b)] + [Commits(1)], 0, key, a, key);
    CommitNoted(w0 + [Deletes(1, key, b)] + [Commits(1)] + [Deletes(0, key, a)], 0, key);
    assert [] + [1] == [1] && [1] + [0] == [1, 0];
  }

  /** Of two overlapping calls for one key, one can leave the summary and the other the details. */
  lemma {:induction false} OverlappingCallsMix(key: Key, a: ReconcileResult, b: ReconcileResult, path: string)
    ensures
      var s := ApplyAll(Empty, Mixed(key, a, b, path));
      && StoredSummary(s, key) == Some(SummaryOf(b, path)) && StoredDetails(s, key) == Differences(a)
      && (CountsAgree(SummaryOf(b, path), StoredDetails(s, key)) <==> CountsIn(a) == CountsIn(b))
  {
    PastOfMixed(key, a, b, path);
    LastWriteWins(Mixed(key, a, b, path), key);
    CountsOfDifferences(a);
    LastSurvives(Past(Mixed(key, a, b, path)), key, a, b);
    hide Past, ApplyAll, LastSaved, Mixed, Differences, CountsOf, StoredDetails, StoredSummary, Survivors;
  }

  lemma {:induction false} LastSurvives(h: History, key: Key, a: ReconcileResult, b: ReconcileResult)
    requires h == History(map[1 := Started(key, b, 0), 0 := Started(key, a, 1)], [1, 0]) && Sensible(h)
    ensures Survivors(h, key, 2) == Differences(a)
  {
    OnlySurvivor(h, key, 0, 1);
    hide Differences, Survivors;
    assert [] + Differences(a) == Differences(a);
  }

  function PiledUp(key: Key, a: ReconcileResult, b: ReconcileResult, path: string): seq<Write> {
    BothSaved(key, a, b, path) + [Deletes(0, key, a)] + [Deletes(1, key, b)] + [Commits(0)] + [Commits(1)]
  }

  lemma {:induction false} PastOfPiledUp(key: Key, a: ReconcileResult, b: ReconcileResult, path: string)
    ensures Past(PiledUp(key, a, b, path)) == History(map[0 := Started(key, a, 0), 1 := Started(key, b, 0)], [0, 1])
    ensures LastSaved(PiledUp(key, a, b, path), key) == Some(SavesReport(key, b, path))
  {
    hide Past, LastSaved, BothSaved;
    var w0 := BothSaved(key, a, b, path);
    PastOfBothSaved(key, a, b, path);
    DeleteNoted(w0, 0, key, a, key);
    DeleteNoted(w0 + [Deletes(0, key, a)], 1, key, b, key);
    CommitNoted(w0 + [Deletes(0, key, a)] + [Deletes(1, key, b)], 0, key);
    CommitNoted(w0 + [Deletes(0, key, a)] + [Deletes(1, key, b)] + [Commits(0)], 1, key);
    assert [] + [0] == [0] && [0] + [1] == [0, 1];
  }

  /** If both issue their DELETE before either commits, the rows of both stay, even when both found the
      same: then the counts agree exactly when the first call found no difference at all. */
  lemma {:induction false} OverlappingCallsPileUp(key: Key, a: ReconcileResult, b: ReconcileResult, path: string)
    ensures
      var s := ApplyAll(Empty, PiledUp(key, a, b, path));
      && StoredSummary(s, key) == Some(SummaryOf(b, path))
      && StoredDetails(s, key) == Differences(a) + Differences(b)
      && (CountsAgree(SummaryOf(b, path), StoredDetails(s, key)) <==> CountsIn(a) == NONE)
  {
    PastOfPiledUp(key, a, b, path);
    LastWriteWins(PiledUp(key, a, b, path), key);
    BothSurvive(Past(PiledUp(key, a, b, path)), key, a, b);
    CountsPileUp(a, b, path);
    hide *;
  }

  lemma {:induction false} CountsPileUp(a: ReconcileResult, b: ReconcileResult, path: string)
    ensures CountsAgree(SummaryOf(b, path), Differences(a) + Differences(b)) <==> CountsIn(a) == NONE
  {
    CountsOfDifferences(a);
    CountsOfDifferences(b);
    CountsAppend(Differences(a), Differences(b));
    hide CountsOf, Differences;
  }

  lemma {:induction false} BothSurvive(h: History, key: Key, a: ReconcileResult, b: ReconcileResult)
    requires h == History(map[0 := Started(key, a, 0), 1 := Started(key, b, 0)], [0, 1]) && Sensible(h)
    ensures Survivors(h, key, 2) == Differences(a) + Differences(b)
  {
    hide Differences;
    assert KeyAt(h, 0) == key && KeyAt(h, 1) == key && Survives(h, 0) && Survives(h, 1);
    assert Survivors(h, key, 1) == [] + Differences(a) == Differences(a);
  }
}
