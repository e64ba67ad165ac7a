/**
 * `SyncManager`: a "pending changes" flag and a change count derived from the
 * append-only audit log, and the sync that appends a marker row.
 * Row timestamps are integers; `EPOCH` stands for '1970-01-01'.
 */
module Sync {
  import opened Wrappers
  import opened Sorting

  datatype AuditRow = AuditRow(
    id: nat, individuId: int, champ: string,
    oldValue: Option<string>, newValue: Option<string>,
    userId: Option<int>, action: string, dateModif: int)

  const EPOCH: int := 0

  /** `MAX(date_modif)` over the rows whose action is 'sync'. */
  function LastSyncTime(rows: seq<AuditRow>): (t: Option<int>)
    ensures t.None? <==> forall i :: 0 <= i < |rows| ==> rows[i].action != "sync"
    ensures t.Some? ==> exists i :: 0 <= i < |rows| && rows[i].action == "sync" && rows[i].dateModif == t.value
    ensures t.Some? ==> forall i :: 0 <= i < |rows| && rows[i].action == "sync" ==> rows[i].dateModif <= t.value
  {
    if rows == [] then None
    else
      var rest := LastSyncTime(rows[..|rows| - 1]);
      var last := rows[|rows| - 1];
      assert forall i :: 0 <= i < |rows| - 1 ==> rows[i] == rows[..|rows| - 1][i];
      if last.action != "sync" then rest
      else if rest.Some? && rest.value >= last.dateModif then rest
      else Some(last.dateModif)
  }

  /** `COALESCE(MAX(date_modif) WHERE action = 'sync', '1970-01-01')`. */
  function Boundary(rows: seq<AuditRow>): int {
    OptionOr(LastSyncTime(rows), EPOCH)
  }

  function After(rows: seq<AuditRow>, bound: int): (r: seq<AuditRow>)
    ensures |r| <= |rows|
    ensures forall x :: x in r <==> x in rows && x.dateModif > bound
    ensures multiset(r) <= multiset(rows)
  {
    if rows == [] then []
    else
      var rest := After(rows[1..], bound);
      assert rows == [rows[0]] + rows[1..];
      if rows[0].dateModif > bound then [rows[0]] + rest else rest
  }

  /** The rows the sync query selects: strictly after the boundary, in the table's order. */
  function PendingRows(rows: seq<AuditRow>): seq<AuditRow> {
    After(rows, Boundary(rows))
  }

  /** `ORDER BY date_modif ASC` (ties in table order). */
  function ByDate(): (le: (AuditRow, AuditRow) -> bool) {
    ByKey((r: AuditRow) => r.dateModif)
  }

  function SyncQuery(rows: seq<AuditRow>): (r: seq<AuditRow>)
    ensures |r| == |PendingRows(rows)|
    ensures Sorted(r, ByDate())
    ensures multiset(r) == multiset(PendingRows(rows))
  {
    ByKeyTotalPreorder((r: AuditRow) => r.dateModif);
    SortBySorted(PendingRows(rows), ByDate());
    SortBy(PendingRows(rows), ByDate())
  }

  lemma PendingIff(rows: seq<AuditRow>)
    ensures |PendingRows(rows)| > 0 <==> exists i :: 0 <= i < |rows| && rows[i].dateModif > Boundary(rows)
  {
    var p := PendingRows(rows);
    if |p| > 0 {
      assert p[0] in p;
    }
    if exists i :: 0 <= i < |rows| && rows[i].dateModif > Boundary(rows) {
      var i :| 0 <= i < |rows| && rows[i].dateModif > Boundary(rows);
      assert rows[i] in p;
    }
  }

  lemma EmptyTableNotPending()
    ensures PendingRows([]) == []
  {
  }

  function Marker(id: nat, now: int): (m: AuditRow)
    ensures m.individuId == 0 && m.champ == "sync" && m.action == "sync" && m.dateModif == now
  {
    AuditRow(id, 0, "sync", None, None, None, "sync", now)
  }

  /**
   * After a marker whose time is at least every row's time, nothing is
   * pending, so a status reports false and a second sync counts 0.
   */
  lemma {:induction false} MarkerClearsPending(rows: seq<AuditRow>, id: nat, now: int)
    requires forall i :: 0 <= i < |rows| ==> rows[i].dateModif <= now
    ensures Boundary(rows + [Marker(id, now)]) == now
    ensures PendingRows(rows + [Marker(id, now)]) == []
    ensures SyncQuery(rows + [Marker(id, now)]) == []
  {
    var t := rows + [Marker(id, now)];
    assert t[..|t| - 1] == rows;
    var b := LastSyncTime(t);
    assert b.Some?;
    assert b.value == now by {
      assert t[|t| - 1].action == "sync";
      var j :| 0 <= j < |t| && t[j].action == "sync" && t[j].dateModif == b.value;
      assert t[j].dateModif <= now;
    }
    AfterNone(t, now);
  }

  lemma {:induction false} AfterNone(rows: seq<AuditRow>, bound: int)
    requires forall i :: 0 <= i < |rows| ==> rows[i].dateModif <= bound
    ensures After(rows, bound) == []
  {
    if rows != [] {
      AfterNone(rows[1..], bound);
    }
  }

  /** The audit table: its rows and the next AUTOINCREMENT id. */
  class AuditLog {
    var rows: seq<AuditRow>
    var nextId: nat

    ghost predicate Valid()
      reads this
    {
      forall i :: 0 <= i < |rows| ==> rows[i].id < nextId
    }

    constructor (rows0: seq<AuditRow>, nextId0: nat)
      requires forall i :: 0 <= i < |rows0| ==> rows0[i].id < nextId0
      ensures Valid() && rows == rows0 && nextId == nextId0
    {
      rows, nextId := rows0, nextId0;
    }
  }

  datatype SyncStatus = SyncStatus(lastSync: Option<string>, pendingChanges: bool, error: Option<string>)

  datatype SyncResult = SyncResult(success: bool, error: Option<string>, changesCount: Option<int>)

  /** Which step of `get_sync_status` fails, if any. */
  datatype StatusFaults = StatusFaults(
    connect: Option<string>, query: Option<string>,
    firstRowRead: bool, column: Option<string>)

  /** Which step of `perform_sync` fails, if any; `rowRead == Some(k)` fails the k-th row read. */
  datatype SyncFaults = SyncFaults(
    connect: Option<string>, begin: Option<string>, query: Option<string>,
    rowRead: Option<nat>, insert: Option<string>, commit: Option<string>)

  /** The error of the first step that fails, in the order the steps run. */
  function FirstFailure(f: SyncFaults): (e: Option<string>)
    ensures e.None? <==> f.connect.None? && f.begin.None? && f.query.None? && f.insert.None? && f.commit.None?
  {
    if f.connect.Some? then f.connect
    else if f.begin.Some? then f.begin
    else if f.query.Some? then f.query
    else if f.insert.Some? then f.insert
    else f.commit
  }

  class SyncManager {
    const db: AuditLog
    var lastSync: Option<string>

    /** `SyncManager::_new`. */
    constructor (db: AuditLog)
      ensures this.db == db && lastSync == None
    {
      this.db := db;
      lastSync := None;
    }

    /** `get_sync_status`: reads only, and reports the flag without an error on success. */
    method GetSyncStatus(f: StatusFaults) returns (r: Result<SyncStatus, string>)
      ensures f.connect.Some? ==> r == Err(f.connect.value)
      ensures f.connect.None? && f.query.Some? ==> r == Err(f.query.value)
      ensures f.connect.None? && f.query.None? && !f.firstRowRead && f.column.Some? ==> r == Err(f.column.value)
      ensures r.Ok? <==> f.connect.None? && f.query.None? && (f.firstRowRead || f.column.None?)
      ensures r.Ok? ==> r.value.lastSync == lastSync && r.value.error.None?
      ensures r.Ok? ==> (r.value.pendingChanges <==> !f.firstRowRead && |PendingRows(db.rows)| > 0)
    {
      var last := lastSync;
      if f.connect.Some? {
        return Err(f.connect.value);
      }
      if f.query.Some? {
        return Err(f.query.value);
      }
      var pending := false;
      if !f.firstRowRead {
        if f.column.Some? {
          return Err(f.column.value);
        }
        var count := |PendingRows(db.rows)|;
        pending := count > 0;
      }
      r := Ok(SyncStatus(last, pending, None));
    }

    /**
     * `perform_sync`: counts the selected rows until the end or a failed read,
     * then appends one marker row and commits. Any failing step before the
     * commit completes leaves the table and `lastSync` as they were.
     */
    method PerformSync(now: int, clock: string, f: SyncFaults) returns (r: Result<SyncResult, string>)
      requires db.Valid()
      modifies this, db
      ensures db.Valid()
      ensures var e := FirstFailure(f);
        e.Some? ==> (r == Err(e.value) && lastSync == old(lastSync)
                     && db.rows == old(db.rows) && db.nextId == old(db.nextId))
      ensures var e := FirstFailure(f);
        e.None? ==> (lastSync == Some(clock)
                     && db.rows == old(db.rows) + [Marker(old(db.nextId), now)]
                     && db.nextId == old(db.nextId) + 1
                     && r == Ok(SyncResult(true, None, Some(
                          if f.rowRead.Some? && f.rowRead.value < |PendingRows(old(db.rows))|
                          then f.rowRead.value else |PendingRows(old(db.rows))|))))
    {
      if f.connect.Some? {
        return Err(f.connect.value);
      }
      if f.begin.Some? {
        return Err(f.begin.value);
      }
      if f.query.Some? {
        return Err(f.query.value);
      }
      var selected := SyncQuery(db.rows);
      var changesCount := 0;
      while changesCount < |selected| && f.rowRead != Some(changesCount)
        invariant changesCount <= |selected|
        invariant f.rowRead.Some? ==> changesCount <= f.rowRead.value
      {
        changesCount := changesCount + 1;
      }
      if f.insert.Some? {
        return Err(f.insert.value);
      }
      if f.commit.Some? {
        return Err(f.commit.value);
      }
      db.rows := db.rows + [Marker(db.nextId, now)];
      db.nextId := db.nextId + 1;
      lastSync := Some(clock);
      r := Ok(SyncResult(true, None, Some(changesCount)));
    }
  }
}
