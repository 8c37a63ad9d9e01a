/**
 * Saving what a parent edited on the mission pages: status changes of pending missions,
 * the mission history, and a child's mission definitions. Each reads a whole sheet,
 * changes it in memory and writes it back whole; any exception makes the save return False.
 */
module MissionManager {
  import opened Wrappers
  import opened Text
  import opened Sheet
  import opened DbManager
  import UiHelpers

  /** The editor's column holding the Korean status shown. */
  const StatusLabelColumn := "상태"

  /** `status_map_inv.get(kor_s, default)` */
  function StatusOf(inv: map<string, string>, shown: Option<Value>, default: string): string {
    if shown.Some? && shown.value.Str? && shown.value.s in inv then inv[shown.value.s] else default
  }

  /** `str(reas) if reas else ""`: NaN is truthy and becomes "nan". */
  function ReasonText(reas: Option<Value>): string {
    if Truthy(reas) then Render(reas) else ""
  }

  /** Every label shown for a status is saved back as that status, whatever the default. */
  lemma StatusLabelRoundTrip(status: string, default: string)
    requires status in UiHelpers.StatusMaps().0
    ensures StatusOf(UiHelpers.StatusMaps().1, Some(Str(UiHelpers.StatusMaps().0[status])), default) == status
  {
    UiHelpers.StatusMapsInverse();
  }

  /** The stored row a record's `mission_id` selects: the first row with an equal id; a NaN id selects nothing. */
  function MatchOf(t: Table, record: Row): (i: Option<nat>)
    ensures i.Some? ==> i.value < |t.rows| && Cell(record, "mission_id").Some?
                        && Cell(t.rows[i.value], "mission_id") == Cell(record, "mission_id")
                        && forall j :: 0 <= j < i.value ==> Cell(t.rows[j], "mission_id") != Cell(record, "mission_id")
    ensures i.None? ==> forall j :: 0 <= j < |t.rows| ==> Cell(t.rows[j], "mission_id") != Cell(record, "mission_id") || Cell(record, "mission_id").None?
  {
    var mid := Cell(record, "mission_id");
    if mid.Some? then FirstMatch(t.rows, CellIs("mission_id", mid.value)) else None
  }

  /** The status and reason a save writes into a matched row. */
  function StatusCells(status: string, reas: Option<Value>): map<string, Value> {
    map["status" := Str(status), "rejection_reason" := Str(ReasonText(reas))]
  }

  /**
   * One record of `save_pending_changes`: the new table and whether it counted as a change;
   * None when a column read raises.
   */
  function PendingStep(t: Table, record: Row, recordColumns: set<string>, inv: map<string, string>): (r: Option<(Table, bool)>)
    ensures r.Some? ==> |r.value.0.rows| == |t.rows| && t.columns <= r.value.0.columns
    ensures r.Some? && !r.value.1 ==> r.value.0 == t
    ensures r.Some? && r.value.1 ==> MatchOf(t, record).Some?
    ensures r.Some? && r.value.1 && MatchOf(t, record).Some? ==>
      var i := MatchOf(t, record).value;
      var status := StatusOf(inv, Cell(record, StatusLabelColumn), "Pending");
      && (Cell(t.rows[i], "status") != Some(Str(status))
          || Render(Cell(t.rows[i], "rejection_reason")) != Render(Cell(record, "rejection_reason")))
      && r.value.0 == SetCells(t, i, StatusCells(status, Cell(record, "rejection_reason")))
    ensures r.None? <==>
      || "mission_id" !in recordColumns || StatusLabelColumn !in recordColumns || "rejection_reason" !in recordColumns
      || "mission_id" !in t.columns
      || (MatchOf(t, record).Some? &&
          ("status" !in t.columns
           || (Cell(t.rows[MatchOf(t, record).value], "status") == Some(Str(StatusOf(inv, Cell(record, StatusLabelColumn), "Pending")))
               && "rejection_reason" !in t.columns)))
    ensures ("mission_id" in recordColumns && StatusLabelColumn in recordColumns && "rejection_reason" in recordColumns
             && "mission_id" in t.columns && MatchOf(t, record).None?)
            ==> r == Some((t, false))
    ensures ("mission_id" in recordColumns && StatusLabelColumn in recordColumns && "rejection_reason" in recordColumns
             && "mission_id" in t.columns && "status" in t.columns && MatchOf(t, record).Some?
             && Cell(t.rows[MatchOf(t, record).value], "status") != Some(Str(StatusOf(inv, Cell(record, StatusLabelColumn), "Pending"))))
            ==> r == Some((SetCells(t, MatchOf(t, record).value,
                                    StatusCells(StatusOf(inv, Cell(record, StatusLabelColumn), "Pending"), Cell(record, "rejection_reason"))),
                           true))
    ensures ("mission_id" in recordColumns && StatusLabelColumn in recordColumns && "rejection_reason" in recordColumns
             && "mission_id" in t.columns && "status" in t.columns && "rejection_reason" in t.columns
             && MatchOf(t, record).Some?)
            ==>
      var i := MatchOf(t, record).value;
      var status := StatusOf(inv, Cell(record, StatusLabelColumn), "Pending");
      var reas := Cell(record, "rejection_reason");
      var differs := Cell(t.rows[i], "status") != Some(Str(status)) || Render(Cell(t.rows[i], "rejection_reason")) != Render(reas);
      r == Some((if differs then SetCells(t, i, StatusCells(status, reas)) else t, differs))
  {
    if "mission_id" !in recordColumns || StatusLabelColumn !in recordColumns || "rejection_reason" !in recordColumns then None
    else if "mission_id" !in t.columns then None
    else
      var status := StatusOf(inv, Cell(record, StatusLabelColumn), "Pending");
      var reas := Cell(record, "rejection_reason");
      match MatchOf(t, record)
      case None => Some((t, false))
      case Some(i) =>
        if "status" !in t.columns then None
        else if Cell(t.rows[i], "status") != Some(Str(status)) then Some((SetCells(t, i, StatusCells(status, reas)), true))
        else if "rejection_reason" !in t.columns then None
        else if Render(Cell(t.rows[i], "rejection_reason")) != Render(reas) then Some((SetCells(t, i, StatusCells(status, reas)), true))
        else Some((t, false))
  }

  /** The loop of `save_pending_changes` over the edited records: the table and the change count. */
  function PendingFold(t: Table, records: seq<Row>, recordColumns: set<string>, inv: map<string, string>): Option<(Table, nat)>
    decreases |records|
  {
    if records == [] then Some((t, 0))
    else
      match PendingFold(t, records[..|records| - 1], recordColumns, inv)
      case None => None
      case Some((t', n)) =>
        match PendingStep(t', records[|records| - 1], recordColumns, inv)
        case None => None
        case Some((t'', changed)) => Some((t'', if changed then n + 1 else n))
  }

  /** Setting status and reason never touches the ids, so a row no record names keeps matching nothing. */
  lemma {:induction false} PendingFoldKeepsOthers(t: Table, records: seq<Row>, recordColumns: set<string>, inv: map<string, string>)
    requires PendingFold(t, records, recordColumns, inv).Some?
    ensures var t' := PendingFold(t, records, recordColumns, inv).value.0;
      && |t'.rows| == |t.rows|
      && (forall j :: 0 <= j < |t.rows| ==> Cell(t'.rows[j], "mission_id") == Cell(t.rows[j], "mission_id"))
      && forall j :: 0 <= j < |t.rows| && (forall r :: r in records ==> Cell(r, "mission_id") != Cell(t.rows[j], "mission_id"))
                     ==> t'.rows[j] == t.rows[j]
    decreases |records|
  {
    if records != [] {
      var p := records[..|records| - 1];
      var last := records[|records| - 1];
      assert forall r :: r in p ==> r in records;
      PendingFoldKeepsOthers(t, p, recordColumns, inv);
      var t1 := PendingFold(t, p, recordColumns, inv).value.0;
      var step := PendingStep(t1, last, recordColumns, inv).value;
      if step.1 {
        var i := MatchOf(t1, last).value;
        forall j | 0 <= j < |t.rows| && (forall r :: r in records ==> Cell(r, "mission_id") != Cell(t.rows[j], "mission_id"))
          ensures j != i
        {
          assert Cell(last, "mission_id") != Cell(t.rows[j], "mission_id");
        }
      }
    }
  }

  /** With no change counted, the table is exactly the stored one. */
  lemma {:induction false} PendingFoldNoChange(t: Table, records: seq<Row>, recordColumns: set<string>, inv: map<string, string>)
    requires PendingFold(t, records, recordColumns, inv).Some?
    requires PendingFold(t, records, recordColumns, inv).value.1 == 0
    ensures PendingFold(t, records, recordColumns, inv).value.0 == t
    decreases |records|
  {
    if records != [] {
      PendingFoldNoChange(t, records[..|records| - 1], recordColumns, inv);
    }
  }

  /**
   * The pending-mission table `save_pending_changes` writes, or None when it writes nothing
   * (a column is missing, or no row changed).
   */
  function PendingPlan(missions: Table, edited: Table, inv: map<string, string>): Option<Table> {
    match PendingFold(missions, edited.rows, edited.columns, inv)
    case None => None
    case Some((t, n)) => if n > 0 then Some(t) else None
  }

  /** The body of the `save_pending_changes` loop for one record; `raised` when a column read raises. */
  method ApplyPendingRecord(allRaw: Table, r: Row, recordColumns: set<string>, inv: map<string, string>)
    returns (raised: bool, next: Table, changed: bool)
    ensures raised <==> PendingStep(allRaw, r, recordColumns, inv).None?
    ensures !raised ==> PendingStep(allRaw, r, recordColumns, inv) == Some((next, changed))
  {
    next, changed := allRaw, false;
    if "mission_id" !in recordColumns || StatusLabelColumn !in recordColumns || "rejection_reason" !in recordColumns
       || "mission_id" !in allRaw.columns {
      return true, next, changed;
    }
    var engS := StatusOf(inv, Cell(r, StatusLabelColumn), "Pending");
    var reas := Cell(r, "rejection_reason");
    var idx := MatchOf(allRaw, r);
    if idx.Some? {
      var k := idx.value;
      if "status" !in allRaw.columns {
        return true, next, changed;
      }
      var statusDiffers := Cell(allRaw.rows[k], "status") != Some(Str(engS));
      if !statusDiffers && "rejection_reason" !in allRaw.columns {
        return true, next, changed;
      }
      if statusDiffers || Render(Cell(allRaw.rows[k], "rejection_reason")) != Render(reas) {
        next := SetCells(allRaw, k, StatusCells(engS, reas));
        changed := true;
      }
    }
    raised := false;
  }

  /** The loop of `save_pending_changes` over the edited records; `raised` when a record's column read raises. */
  method ApplyPendingRecords(missions: Table, edited: Table, inv: map<string, string>)
    returns (raised: bool, allRaw: Table, changes: nat)
    ensures raised <==> PendingFold(missions, edited.rows, edited.columns, inv).None?
    ensures !raised ==> PendingFold(missions, edited.rows, edited.columns, inv) == Some((allRaw, changes))
  {
    allRaw, changes := missions, 0;
    var i := 0;
    while i < |edited.rows|
      invariant 0 <= i <= |edited.rows|
      invariant PendingFold(missions, edited.rows[..i], edited.columns, inv) == Some((allRaw, changes))
    {
      var failed, next, counted := ApplyPendingRecordAt(missions, edited, inv, i, allRaw, changes);
      if failed {
        return true, allRaw, changes;
      }
      allRaw, changes := next, counted;
      i := i + 1;
    }
    assert edited.rows[..|edited.rows|] == edited.rows;
    raised := false;
  }

  /** The loop body for record `i`: it either raises, which makes the whole fold raise, or extends the fold by one record. */
  method ApplyPendingRecordAt(missions: Table, edited: Table, inv: map<string, string>, i: nat, allRaw: Table, changes: nat)
    returns (raised: bool, next: Table, counted: nat)
    requires i < |edited.rows|
    requires PendingFold(missions, edited.rows[..i], edited.columns, inv) == Some((allRaw, changes))
    ensures raised ==> PendingFold(missions, edited.rows, edited.columns, inv).None?
    ensures !raised ==> PendingFold(missions, edited.rows[..i + 1], edited.columns, inv) == Some((next, counted))
  {
    var failed, stepped, changed := ApplyPendingRecord(allRaw, edited.rows[i], edited.columns, inv);
    if failed {
      // a KeyError: the save reports False and writes nothing
      assert edited.rows[..i + 1][..i] == edited.rows[..i];
      FoldFailsAfter(missions, edited.rows, i + 1, edited.columns, inv);
      return true, allRaw, changes;
    }
    PendingFoldSnoc(missions, edited.rows, i, edited.columns, inv, allRaw, changes, stepped, changed);
    next := stepped;
    counted := if changed then changes + 1 else changes;
    raised := false;
  }

  /** One more record extends the fold by its step. */
  lemma PendingFoldSnoc(t: Table, records: seq<Row>, i: nat, recordColumns: set<string>, inv: map<string, string>,
                        acc: Table, n: nat, next: Table, changed: bool)
    requires i < |records|
    requires PendingFold(t, records[..i], recordColumns, inv) == Some((acc, n))
    requires PendingStep(acc, records[i], recordColumns, inv) == Some((next, changed))
    ensures PendingFold(t, records[..i + 1], recordColumns, inv) == Some((next, if changed then n + 1 else n))
  {
    assert records[..i + 1][..i] == records[..i];
  }

  /** `save_pending_changes` */
  method SavePendingChanges(db: DataManager, edited: Table, inv: map<string, string>) returns (ok: bool)
    modifies db`sheets
    ensures var plan := PendingPlan(old(db.GetData(MissionsSheet)), edited, inv);
      && (ok <==> plan.Some? && db.writable)
      && db.sheets == db.AfterPlannedWrite(old(db.sheets), MissionsSheet, plan)
  {
    var missions := db.GetMissions(None);
    var raised, allRaw, changes := ApplyPendingRecords(missions, edited, inv);
    if !raised && changes > 0 {
      ok := db.UpdateData(MissionsSheet, allRaw);
    } else {
      ok := false;
    }
  }

  /** Once a record raises, the whole loop raises. */
  lemma {:induction false} FoldFailsAfter(t: Table, records: seq<Row>, n: nat, recordColumns: set<string>, inv: map<string, string>)
    requires 0 < n <= |records|
    requires PendingFold(t, records[..n - 1], recordColumns, inv).Some?
    requires PendingStep(PendingFold(t, records[..n - 1], recordColumns, inv).value.0, records[n - 1], recordColumns, inv).None?
    ensures PendingFold(t, records, recordColumns, inv).None?
  {
    assert records[..n][..n - 1] == records[..n - 1];
    assert PendingFold(t, records[..n], recordColumns, inv).None?;
    PendingFoldFailsAfter(t, records, n, recordColumns, inv);
  }

  lemma {:induction false} PendingFoldFailsAfter(t: Table, records: seq<Row>, n: nat, recordColumns: set<string>, inv: map<string, string>)
    requires n <= |records| && PendingFold(t, records[..n], recordColumns, inv).None?
    ensures PendingFold(t, records, recordColumns, inv).None?
    decreases |records| - n
  {
    if n < |records| {
      assert records[..n + 1][..n] == records[..n];
      PendingFoldFailsAfter(t, records, n + 1, recordColumns, inv);
    } else {
      assert records[..n] == records;
    }
  }

  // ---------------------------------------------------------------- history

  /** `current_ids`: the ids read record by record. */
  function RecordIds(records: seq<Row>): seq<Option<Value>> {
    seq(|records|, i requires 0 <= i < |records| => Cell(records[i], "mission_id"))
  }

  /** `original_ids`: the id column as a list. */
  function ColumnValues(t: Table, col: string): seq<Option<Value>> {
    seq(|t.rows|, i requires 0 <= i < |t.rows| => Cell(t.rows[i], col))
  }

  /** `deleted_ids = set(original_ids) - set(current_ids)` */
  function DeletedIds(edited: Table): set<Option<Value>> {
    (set x | x in ColumnValues(edited, "mission_id")) - (set x | x in RecordIds(edited.rows))
  }

  /** Both id lists are read from the same edited table, so `save_history` never deletes a row. */
  lemma NoHistoryDeletion(edited: Table)
    ensures DeletedIds(edited) == {}
  {
    assert ColumnValues(edited, "mission_id") == RecordIds(edited.rows);
  }

  /** One record of `save_history`: the first row with its id gets the mapped status (default "Assigned") and the reason. */
  function HistoryStep(t: Table, record: Row, recordColumns: set<string>, inv: map<string, string>): (r: Option<Table>)
    ensures r.Some? ==> |r.value.rows| == |t.rows|
    ensures r.Some? && MatchOf(t, record).None? ==> r.value == t
    ensures r.Some? && MatchOf(t, record).Some? ==>
      var reas := if "rejection_reason" in recordColumns then Cell(record, "rejection_reason") else Some(Str(""));
      r.value == SetCells(t, MatchOf(t, record).value,
                          StatusCells(StatusOf(inv, Cell(record, StatusLabelColumn), "Assigned"), reas))
    ensures r.Some? ==> t.columns <= r.value.columns
    ensures r.None? <==> "mission_id" !in recordColumns || StatusLabelColumn !in recordColumns || "mission_id" !in t.columns
  {
    if "mission_id" !in recordColumns || StatusLabelColumn !in recordColumns || "mission_id" !in t.columns then None
    else
      var reas := if "rejection_reason" in recordColumns then Cell(record, "rejection_reason") else Some(Str(""));
      var status := StatusOf(inv, Cell(record, StatusLabelColumn), "Assigned");
      match MatchOf(t, record)
      case None => Some(t)
      case Some(i) => Some(SetCells(t, i, StatusCells(status, reas)))
  }

  function HistoryFold(t: Table, records: seq<Row>, recordColumns: set<string>, inv: map<string, string>): Option<Table>
    decreases |records|
  {
    if records == [] then Some(t)
    else
      match HistoryFold(t, records[..|records| - 1], recordColumns, inv)
      case None => None
      case Some(t') => HistoryStep(t', records[|records| - 1], recordColumns, inv)
  }

  /** Every stored row survives the history save, and a row no record names is left as it was. */
  lemma {:induction false} HistoryFoldKeepsOthers(t: Table, records: seq<Row>, recordColumns: set<string>, inv: map<string, string>)
    requires HistoryFold(t, records, recordColumns, inv).Some?
    ensures var t' := HistoryFold(t, records, recordColumns, inv).value;
      && |t'.rows| == |t.rows|
      && (forall j :: 0 <= j < |t.rows| ==> Cell(t'.rows[j], "mission_id") == Cell(t.rows[j], "mission_id"))
      && forall j :: 0 <= j < |t.rows| && (forall r :: r in records ==> Cell(r, "mission_id") != Cell(t.rows[j], "mission_id"))
                     ==> t'.rows[j] == t.rows[j]
    decreases |records|
  {
    if records != [] {
      var p := records[..|records| - 1];
      var last := records[|records| - 1];
      assert forall r :: r in p ==> r in records;
      HistoryFoldKeepsOthers(t, p, recordColumns, inv);
      var t1 := HistoryFold(t, p, recordColumns, inv).value;
      if MatchOf(t1, last).Some? {
        var i := MatchOf(t1, last).value;
        forall j | 0 <= j < |t.rows| && (forall r :: r in records ==> Cell(r, "mission_id") != Cell(t.rows[j], "mission_id"))
          ensures j != i
        {
          assert Cell(last, "mission_id") != Cell(t.rows[j], "mission_id");
        }
      }
    }
  }

  /** The table `save_history` writes, or None when reading a column raises. */
  function HistoryPlan(missions: Table, edited: Table, inv: map<string, string>): Option<Table> {
    if "mission_id" !in edited.columns then None
    else HistoryFold(missions, edited.rows, edited.columns, inv)
  }

  /** With the id and status columns present no read raises, so the history fold always yields a table. */
  lemma {:induction false} HistoryFoldWrites(t: Table, records: seq<Row>, recordColumns: set<string>, inv: map<string, string>)
    requires "mission_id" in recordColumns && StatusLabelColumn in recordColumns && "mission_id" in t.columns
    ensures HistoryFold(t, records, recordColumns, inv).Some?
    ensures t.columns <= HistoryFold(t, records, recordColumns, inv).value.columns
    decreases |records|
  {
    if records != [] {
      HistoryFoldWrites(t, records[..|records| - 1], recordColumns, inv);
    }
  }

  /** `save_history` always writes the Missions table when the edited table has its id and status columns. */
  lemma HistoryPlanWrites(missions: Table, edited: Table, inv: map<string, string>)
    requires "mission_id" in edited.columns && StatusLabelColumn in edited.columns && "mission_id" in missions.columns
    ensures HistoryPlan(missions, edited, inv).Some?
    ensures missions.columns <= HistoryPlan(missions, edited, inv).value.columns
  {
    HistoryFoldWrites(missions, edited.rows, edited.columns, inv);
  }

  /** The loop of `save_history` over the edited records; `raised` when a column read raises. */
  method ApplyHistoryRecords(missions: Table, edited: Table, inv: map<string, string>) returns (raised: bool, allRaw: Table)
    requires "mission_id" in edited.columns
    ensures raised <==> HistoryFold(missions, edited.rows, edited.columns, inv).None?
    ensures !raised ==> HistoryFold(missions, edited.rows, edited.columns, inv) == Some(allRaw)
  {
    allRaw := missions;
    var i := 0;
    while i < |edited.rows|
      invariant 0 <= i <= |edited.rows|
      invariant HistoryFold(missions, edited.rows[..i], edited.columns, inv) == Some(allRaw)
    {
      var failed, next := ApplyHistoryRecordAt(missions, edited, inv, i, allRaw);
      if failed {
        return true, allRaw;
      }
      allRaw := next;
      i := i + 1;
    }
    assert edited.rows[..|edited.rows|] == edited.rows;
    raised := false;
  }

  /** The loop body for record `i`: it either raises, which makes the whole fold raise, or extends the fold by one record. */
  method ApplyHistoryRecordAt(missions: Table, edited: Table, inv: map<string, string>, i: nat, allRaw: Table)
    returns (raised: bool, next: Table)
    requires "mission_id" in edited.columns && i < |edited.rows|
    requires HistoryFold(missions, edited.rows[..i], edited.columns, inv) == Some(allRaw)
    ensures raised ==> HistoryFold(missions, edited.rows, edited.columns, inv).None?
    ensures !raised ==> HistoryFold(missions, edited.rows[..i + 1], edited.columns, inv) == Some(next)
  {
    assert edited.rows[..i + 1][..i] == edited.rows[..i];
    var r := edited.rows[i];
    if StatusLabelColumn !in edited.columns || "mission_id" !in allRaw.columns {
      HistoryFoldFailsAfter(missions, edited.rows, i + 1, edited.columns, inv);
      return true, allRaw;
    }
    var engS := StatusOf(inv, Cell(r, StatusLabelColumn), "Assigned");
    var reas := if "rejection_reason" in edited.columns then Cell(r, "rejection_reason") else Some(Str(""));
    var idx := MatchOf(allRaw, r);
    next := allRaw;
    if idx.Some? {
      next := SetCells(allRaw, idx.value, StatusCells(engS, reas));
    }
    raised := false;
  }

  /** `save_history`: always writes when no column read raises. */
  method SaveHistory(db: DataManager, edited: Table, inv: map<string, string>) returns (ok: bool)
    modifies db`sheets
    ensures var plan := HistoryPlan(old(db.GetData(MissionsSheet)), edited, inv);
      && (ok <==> plan.Some? && db.writable)
      && db.sheets == db.AfterPlannedWrite(old(db.sheets), MissionsSheet, plan)
    ensures ("mission_id" in edited.columns && StatusLabelColumn in edited.columns && "mission_id" in old(db.GetData(MissionsSheet)).columns)
            ==> ok == db.writable
  {
    if "mission_id" !in edited.columns {
      return false;
    }
    if StatusLabelColumn in edited.columns && "mission_id" in db.GetData(MissionsSheet).columns {
      HistoryPlanWrites(db.GetData(MissionsSheet), edited, inv);
    }
    var deleted := DeletedIds(edited);
    NoHistoryDeletion(edited);
    // `deleted` is empty, so the deletion step keeps every row
    var missions := db.GetMissions(None);
    var raised, allRaw := ApplyHistoryRecords(missions, edited, inv);
    if raised {
      return false;
    }
    ok := db.UpdateData(MissionsSheet, allRaw);
  }

  lemma {:induction false} HistoryFoldFailsAfter(t: Table, records: seq<Row>, n: nat, recordColumns: set<string>, inv: map<string, string>)
    requires n <= |records| && HistoryFold(t, records[..n], recordColumns, inv).None?
    ensures HistoryFold(t, records, recordColumns, inv).None?
    decreases |records| - n
  {
    if n < |records| {
      assert records[..n + 1][..n] == records[..n];
      HistoryFoldFailsAfter(t, records, n + 1, recordColumns, inv);
    } else {
      assert records[..n] == records;
    }
  }

  // ---------------------------------------------------------------- definitions

  /** The names the definition editor's columns get back, by position. */
  const DefinitionColumns: seq<string> := ["def_id", "assignee", "active", "title", "type", "frequency", "note"]

  /** Where the assignee and the id sit among the renamed columns. */
  lemma DefinitionColumnsLayout()
    ensures |DefinitionColumns| == 7 && DefinitionColumns[0] == "def_id" && DefinitionColumns[1] == "assignee"
    ensures "assignee" in (set c | c in DefinitionColumns)
    ensures forall k :: 2 <= k < |DefinitionColumns| ==> DefinitionColumns[k] != "assignee" && DefinitionColumns[k] != "def_id"
    ensures forall i, j :: 0 <= i < |DefinitionColumns| && 0 <= j < |DefinitionColumns| && i != j
                           ==> DefinitionColumns[i] != DefinitionColumns[j]
  {
    assert DefinitionColumns[1] in DefinitionColumns;
  }

  /** The sheet name `save_definitions` writes to, which no reader uses. */
  const AsWrittenDefinitionsSheet := "Mission_Definitions"

  /** The assignee a stored definition gets when the sheet has no assignee column. */
  const DefaultAssignee := "son1"

  /** The editor's table: its number of columns and its rows of cells by position. */
  datatype EditorTable = EditorTable(width: nat, rows: seq<seq<Option<Value>>>)

  predicate Rectangular(e: EditorTable) {
    forall r :: r in e.rows ==> |r| == e.width
  }

  /** `df[col] = v` for a scalar `v`. */
  function FillColumn(t: Table, col: string, v: Value): (t': Table)
    ensures t'.columns == t.columns + {col} && |t'.rows| == |t.rows|
    ensures forall i :: 0 <= i < |t.rows| ==> t'.rows[i] == t.rows[i][col := v]
  {
    Table(t.columns + {col}, seq(|t.rows|, i requires 0 <= i < |t.rows| => t.rows[i][col := v]))
  }

  /** The stored definitions of the other children (NaN assignees included), or an empty frame over an empty sheet. */
  function OthersOf(allRaw: Table, target: string): (others: Table)
    ensures forall r :: r in others.rows ==> Cell(r, "assignee") != Some(Str(target))
    ensures |others.rows| <= |allRaw.rows|
  {
    if IsEmpty(allRaw) then EmptyTable
    else
      var filled := if "assignee" in allRaw.columns then allRaw else FillColumn(allRaw, "assignee", Str(DefaultAssignee));
      var kept := Filter(filled.rows, Not(CellIs("assignee", Str(target))));
      assert forall r :: r in kept ==> !Holds(CellIs("assignee", Str(target)), r);
      Table(filled.columns, kept)
  }

  /** `ensure_id`: a NaN or blank id is replaced by a newId one, any other id is kept as its string. */
  function EnsureId(x: Option<Value>, newId: string): (id: Value)
    ensures x.None? || Strip(Render(x)) == "" ==> id == Str(newId)
    ensures x.Some? && Strip(Render(x)) != "" ==> id == Str(Render(x))
  {
    if x.None? || Strip(Render(x)) == "" then Str(newId) else Str(Render(x))
  }

  /** One edited definition, renamed by position, assigned to the child, with its id ensured. */
  function SavedRow(cells: seq<Option<Value>>, target: string, newId: string): (r: Row)
    requires |cells| == |DefinitionColumns|
    ensures Cell(r, "assignee") == Some(Str(target))
    ensures Cell(r, "def_id") == Some(EnsureId(cells[0], newId))
    ensures forall k :: 2 <= k < |DefinitionColumns| ==> Cell(r, DefinitionColumns[k]) == cells[k]
    ensures r.Keys <= set c | c in DefinitionColumns
  {
    var renamed := map k | 2 <= k < |DefinitionColumns| && cells[k].Some? :: DefinitionColumns[k] := cells[k].value;
    var r := renamed["assignee" := Str(target)]["def_id" := EnsureId(cells[0], newId)];
    DefinitionColumnsLayout();
    r
  }

  function SavedRows(edited: EditorTable, target: string, uuid: nat -> string): (rows: seq<Row>)
    requires Rectangular(edited) && edited.width == |DefinitionColumns|
    ensures |rows| == |edited.rows|
    ensures forall i :: 0 <= i < |rows| ==> rows[i] == SavedRow(edited.rows[i], target, uuid(i))
  {
    seq(|edited.rows|, i requires 0 <= i < |edited.rows| => SavedRow(edited.rows[i], target, uuid(i)))
  }

  /**
   * The definitions table `save_definitions` writes: the other children's stored rows, then the
   * edited rows. None when renaming the editor's columns raises (it does not have seven).
   */
  function DefinitionsToSave(allRaw: Table, edited: EditorTable, target: string, uuid: nat -> string): (r: Option<Table>)
    requires Rectangular(edited)
    ensures r.Some? <==> edited.width == |DefinitionColumns|
    ensures r.Some? ==> r.value.rows == OthersOf(allRaw, target).rows + SavedRows(edited, target, uuid)
    ensures r.Some? ==> "assignee" in r.value.columns
  {
    if edited.width != |DefinitionColumns| then None
    else
      var others := OthersOf(allRaw, target);
      var saved := Table((set c | c in DefinitionColumns), SavedRows(edited, target, uuid));
      assert "assignee" in saved.columns by {
        DefinitionColumnsLayout();
      }
      Some(Concat(others, saved))
  }

  /** Every stored definition of another child is kept, in order, with its fields as they were. */
  lemma OthersKeptInOrder(allRaw: Table, target: string)
    requires !IsEmpty(allRaw) && "assignee" in allRaw.columns
    ensures OthersOf(allRaw, target).rows == Filter(allRaw.rows, Not(CellIs("assignee", Str(target))))
    ensures forall i :: 0 <= i < |allRaw.rows| && Cell(allRaw.rows[i], "assignee") != Some(Str(target))
                        ==> allRaw.rows[i] in OthersOf(allRaw, target).rows
  {
    var test := Not(CellIs("assignee", Str(target)));
    forall i | 0 <= i < |allRaw.rows| && Cell(allRaw.rows[i], "assignee") != Some(Str(target))
      ensures allRaw.rows[i] in OthersOf(allRaw, target).rows
    {
      assert Holds(test, allRaw.rows[i]);
    }
  }

  /** Over a sheet without an assignee column every stored row belongs to "son1": all are dropped when saving for "son1", all kept otherwise. */
  lemma MissingAssigneeMeansDefault(allRaw: Table, target: string)
    requires !IsEmpty(allRaw) && "assignee" !in allRaw.columns
    ensures target == DefaultAssignee ==> OthersOf(allRaw, target).rows == []
    ensures target != DefaultAssignee ==> |OthersOf(allRaw, target).rows| == |allRaw.rows|
    ensures forall r :: r in OthersOf(allRaw, target).rows ==> Cell(r, "assignee") == Some(Str(DefaultAssignee))
  {
    var filled := FillColumn(allRaw, "assignee", Str(DefaultAssignee));
    var test := Not(CellIs("assignee", Str(target)));
    forall i | 0 <= i < |filled.rows|
      ensures Cell(filled.rows[i], "assignee") == Some(Str(DefaultAssignee))
    {
      assert filled.rows[i] == allRaw.rows[i]["assignee" := Str(DefaultAssignee)];
    }
    if target == DefaultAssignee {
      FilterKeepsNone(filled.rows, test);
    } else {
      FilterKeepsAll(filled.rows, test);
    }
  }

  /** Selecting the child's rows from rows of others followed by the child's rows gives the child's rows. */
  lemma SelectOthersThenSaved(t: Table, others: seq<Row>, saved: seq<Row>, target: string)
    requires t.rows == others + saved && "assignee" in t.columns && target != ""
    requires forall r :: r in others ==> Cell(r, "assignee") != Some(Str(target))
    requires forall i :: 0 <= i < |saved| ==> Cell(saved[i], "assignee") == Some(Str(target))
    ensures SelectBy(t, "assignee", Some(target)).rows == saved
  {
    var test := CellIs("assignee", Str(target));
    if t.rows != [] {
      assert Filter(others, test) == [] by {
        forall i | 0 <= i < |others|
          ensures !Holds(test, others[i])
        {
          assert others[i] in others;
        }
        FilterKeepsNone(others, test);
      }
      assert Filter(saved, test) == saved by {
        FilterKeepsAll(saved, test);
      }
      FilterAppend(others, saved, test);
      assert SelectBy(t, "assignee", Some(target)).rows == Filter(t.rows, test);
    }
  }

  /** Read back for the child, the saved table holds exactly the edited rows, in the editor's order. */
  lemma SavedDefinitionsReadBack(allRaw: Table, edited: EditorTable, target: string, uuid: nat -> string)
    requires Rectangular(edited) && edited.width == |DefinitionColumns| && target != ""
    ensures SelectBy(DefinitionsToSave(allRaw, edited, target, uuid).value, "assignee", Some(target)).rows
         == SavedRows(edited, target, uuid)
  {
    var t := DefinitionsToSave(allRaw, edited, target, uuid).value;
    SelectOthersThenSaved(t, OthersOf(allRaw, target).rows, SavedRows(edited, target, uuid), target);
  }

  /** `save_definitions` as written: the table goes to "Mission_Definitions". */
  method SaveDefinitionsAsWritten(db: DataManager, edited: EditorTable, target: string, uuid: nat -> string) returns (ok: bool)
    requires Rectangular(edited)
    modifies db`sheets
    ensures var plan := DefinitionsToSave(old(db.GetData(MissionDefinitionsSheet)), edited, target, uuid);
      && (ok <==> plan.Some? && db.writable)
      && db.sheets == db.AfterPlannedWrite(old(db.sheets), AsWrittenDefinitionsSheet, plan)
    ensures db.GetData(MissionDefinitionsSheet) == old(db.GetData(MissionDefinitionsSheet))
  {
    var allRaw := db.GetMissionDefinitions(None);
    var plan := DefinitionsToSave(allRaw, edited, target, uuid);
    if plan.None? {
      return false;
    }
    ok := db.UpdateData(AsWrittenDefinitionsSheet, plan.value);
  }

  /** `save_definitions` writing to the sheet every reader uses. */
  method SaveDefinitions(db: DataManager, edited: EditorTable, target: string, uuid: nat -> string) returns (ok: bool)
    requires Rectangular(edited)
    modifies db`sheets
    ensures var plan := DefinitionsToSave(old(db.GetData(MissionDefinitionsSheet)), edited, target, uuid);
      && (ok <==> plan.Some? && db.writable)
      && db.sheets == db.AfterPlannedWrite(old(db.sheets), MissionDefinitionsSheet, plan)
    ensures ok && target != "" ==> db.GetMissionDefinitions(Some(target)).rows == SavedRows(edited, target, uuid)
  {
    var allRaw := db.GetMissionDefinitions(None);
    var plan := DefinitionsToSave(allRaw, edited, target, uuid);
    if plan.None? {
      return false;
    }
    ok := db.UpdateData(MissionDefinitionsSheet, plan.value);
    if ok && target != "" {
      SavedDefinitionsReadBack(allRaw, edited, target, uuid);
    }
  }

  /** The two sheet names differ. */
  lemma SheetNamesDiffer()
    ensures AsWrittenDefinitionsSheet != MissionDefinitionsSheet
  {
    assert AsWrittenDefinitionsSheet[7] != MissionDefinitionsSheet[7];
  }

  /**
   * Saving through the as-written sheet name loses the edit: over a store with no definitions,
   * a successful save of one definition reads back nothing for the child, where the corrected
   * save reads back that one definition.
   */
  lemma AsWrittenSaveIsNotReadBack(edited: EditorTable, target: string, uuid: nat -> string)
    requires Rectangular(edited) && edited.width == |DefinitionColumns| && |edited.rows| == 1 && target != ""
    ensures var t := DefinitionsToSave(EmptyTable, edited, target, uuid).value;
      && SelectBy(SheetOf(Written(map[], AsWrittenDefinitionsSheet, t, true), MissionDefinitionsSheet), "assignee", Some(target)).rows == []
      && |SelectBy(SheetOf(Written(map[], MissionDefinitionsSheet, t, true), MissionDefinitionsSheet), "assignee", Some(target)).rows| == 1
  {
    var t := DefinitionsToSave(EmptyTable, edited, target, uuid).value;
    SheetNamesDiffer();
    assert SheetOf(Written(map[], AsWrittenDefinitionsSheet, t, true), MissionDefinitionsSheet) == EmptyTable;
    SavedDefinitionsReadBack(EmptyTable, edited, target, uuid);
  }
}
