/**
 * The data-access layer: every sheet is read whole and written whole. The remote
 * spreadsheet is the `sheets` map; `writable` says whether the remote accepts writes
 * (when it does not, `update_data` reports False and nothing changes).
 */
module DbManager {
  import opened Wrappers
  import opened Text
  import opened Sheet

  const UsersSheet := "Users"
  const MissionsSheet := "Missions"
  const LogsSheet := "Logs"
  const CalendarSheet := "Calendar"
  const WeeklyScheduleSheet := "WeeklySchedule"
  const ReadingSheet := "Reading"
  const PraiseSheet := "Praise"
  const MissionDefinitionsSheet := "MissionDefinitions"

  /** Status a praise request starts in ("waiting"). */
  const PraiseWaiting := "대기 중"

  function LogRow(now: string, userName: string, activityType: string, content: string, reward: int): Row {
    map["Timestamp" := Str(now), "User" := Str(userName), "Type" := Str(activityType),
        "Content" := Str(content), "Reward" := Num(reward)]
  }

  function CalendarRow(eventId: string, date: string, title: string, member: string, eventType: string): Row {
    map["event_id" := Str(eventId), "date" := Str(date), "title" := Str(title),
        "member" := Str(member), "type" := Str(eventType)]
  }

  function ScheduleRow(scheduleId: string, title: string, days: string, startTime: string, endTime: string, assignee: string): Row {
    map["schedule_id" := Str(scheduleId), "title" := Str(title), "days" := Str(days),
        "start_time" := Str(startTime), "end_time" := Str(endTime), "assignee" := Str(assignee)]
  }

  function ReadingRow(readingId: string, readDate: string, bookType: string, bookTitle: string,
                      author: string, review: string, userName: string): Row {
    map["reading_id" := Str(readingId), "read_date" := Str(readDate), "book_type" := Str(bookType),
        "book_title" := Str(bookTitle), "author" := Str(author), "one_line_review" := Str(review),
        "user_name" := Str(userName)]
  }

  function PraiseRow(praiseId: string, today: string, userName: string, content: string): Row {
    map["praise_id" := Str(praiseId), "date" := Str(today), "user_name" := Str(userName),
        "content" := Str(content), "status" := Str(PraiseWaiting)]
  }

  function DefinitionRow(defId: string, title: string, defType: string, frequency: string, assignee: string, note: string): Row {
    map["def_id" := Str(defId), "title" := Str(title), "type" := Str(defType), "frequency" := Str(frequency),
        "assignee" := Str(assignee), "note" := Str(note), "active" := Flag(true)]
  }

  /**
   * The read-modify-write of `update_calendar_event` and `update_praise_status`: the id column
   * is turned to strings, then the first row whose id string is `id` gets `cells`.
   * None when nothing is written: an empty table, no id column (pandas raises), or no such id.
   */
  function EditById(t: Table, idCol: string, id: string, cells: map<string, Value>): (r: Option<Table>)
    ensures r.Some? <==> !IsEmpty(t) && idCol in t.columns
                         && exists j :: 0 <= j < |t.rows| && Render(Cell(t.rows[j], idCol)) == id
    ensures r.Some? ==>
      var i := FirstMatch(t.rows, RenderedIs(idCol, id)).value;
      && |r.value.rows| == |t.rows|
      && r.value.columns == t.columns + cells.Keys
      && (forall j :: 0 <= j < i ==> Render(Cell(t.rows[j], idCol)) != id)
      && (forall j :: 0 <= j < |t.rows| && j != i ==> r.value.rows[j] == StringifyColumn(t, idCol).rows[j])
      && (forall c :: c in cells ==> Cell(r.value.rows[i], c) == Some(cells[c]))
      && (forall c :: c !in cells && c != idCol ==> Cell(r.value.rows[i], c) == Cell(t.rows[i], c))
  {
    if IsEmpty(t) || idCol !in t.columns then None
    else
      match FirstMatch(t.rows, RenderedIs(idCol, id))
      case None => None
      case Some(i) => Some(SetCells(StringifyColumn(t, idCol), i, cells))
  }

  /**
   * The read-modify-write of `delete_calendar_event` and `delete_weekly_schedule`: the id column
   * is turned to strings and exactly the rows whose id string differs from `id` stay, in order.
   * None when nothing is written: an empty table or no id column (pandas raises).
   */
  function DeleteById(t: Table, idCol: string, id: string): (r: Option<Table>)
    ensures r.Some? <==> !IsEmpty(t) && idCol in t.columns
    ensures r.Some? ==> r.value.columns == t.columns + {idCol}
    ensures r.Some? ==> forall x :: x in r.value.rows ==> Render(Cell(x, idCol)) != id
  {
    if IsEmpty(t) || idCol !in t.columns then None
    else
      var s := StringifyColumn(t, idCol);
      var kept := Filter(s.rows, Not(RenderedIs(idCol, id)));
      assert forall x :: x in kept ==> !Holds(RenderedIs(idCol, id), x);
      Some(Table(s.columns, kept))
  }

  /** Turning the id column to strings changes no row's id string, so a row is deleted exactly when its id string is `id`. */
  lemma DeleteByIdCount(t: Table, idCol: string, id: string)
    requires !IsEmpty(t) && idCol in t.columns
    ensures |DeleteById(t, idCol, id).value.rows| + |Filter(t.rows, RenderedIs(idCol, id))| == |t.rows|
  {
    var s := StringifyColumn(t, idCol);
    var test := RenderedIs(idCol, id);
    forall i | 0 <= i < |t.rows|
      ensures Holds(test, s.rows[i]) <==> Holds(test, t.rows[i])
    {
      assert Cell(s.rows[i], idCol) == Some(Str(Render(Cell(t.rows[i], idCol))));
    }
    FilterSameVerdicts(s.rows, t.rows, test, test);
    FilterPartition(s.rows, test);
  }

  /** Every row whose id string differs from `id` survives the delete, with only its id turned to a string. */
  lemma DeleteByIdKeepsOthers(t: Table, idCol: string, id: string, j: nat)
    requires !IsEmpty(t) && idCol in t.columns && j < |t.rows|
    requires Render(Cell(t.rows[j], idCol)) != id
    ensures StringifyColumn(t, idCol).rows[j] in DeleteById(t, idCol, id).value.rows
  {
    var s := StringifyColumn(t, idCol);
    assert Cell(s.rows[j], idCol) == Some(Str(Render(Cell(t.rows[j], idCol))));
    assert Holds(Not(RenderedIs(idCol, id)), s.rows[j]);
  }

  const PraiseColumns: set<string> := {"status", "user_name", "content", "date", "praise_id"}

  function PraiseDefault(c: string): Value {
    if c == "status" then Str(PraiseWaiting) else Str("")
  }

  /** `get_praise_logs` adds each missing praise column, filled with "대기 중" for the status and "" otherwise. */
  function WithPraiseDefaults(t: Table): (t': Table)
    ensures t'.columns == t.columns + PraiseColumns && |t'.rows| == |t.rows|
    ensures forall i, c :: 0 <= i < |t.rows| && c in PraiseColumns && c !in t.columns
                           ==> Cell(t'.rows[i], c) == Some(PraiseDefault(c))
    ensures forall i, c :: 0 <= i < |t.rows| && (c !in PraiseColumns || c in t.columns)
                           ==> Cell(t'.rows[i], c) == Cell(t.rows[i], c)
  {
    var missing := PraiseColumns - t.columns;
    Table(t.columns + PraiseColumns,
          seq(|t.rows|, i requires 0 <= i < |t.rows| => t.rows[i] + map c | c in missing :: PraiseDefault(c)))
  }

  /** One entry of `get_user_dict`. */
  datatype UserRecord = UserRecord(name: Value, password: Value, email: Value, role: Value)

  /** The username a Users row contributes: skipped when missing, NaN or falsy. */
  function UsernameOf(r: Row): (u: Option<Value>)
    ensures u.Some? ==> u == Cell(r, "username") && Truthy(u)
    ensures u.None? ==> Cell(r, "username").None? || !Truthy(Cell(r, "username"))
  {
    var u := Cell(r, "username");
    if u.Some? && Truthy(u) then u else None
  }

  /** The record of a row: name defaults to the username, password and email to "", role to "user". */
  function UserRecordOf(r: Row, username: Value): UserRecord {
    UserRecord(
      if "name" in r then r["name"] else username,
      if "password" in r then r["password"] else Str(""),
      if "email" in r then r["email"] else Str(""),
      if "role" in r then r["role"] else Str("user"))
  }

  /** The user dictionary built from the rows in order, a later row overwriting an earlier one. */
  function UserDictOf(rows: seq<Row>): map<Value, UserRecord>
    decreases |rows|
  {
    if rows == [] then map[]
    else
      var d := UserDictOf(rows[..|rows| - 1]);
      var r := rows[|rows| - 1];
      match UsernameOf(r)
      case None => d
      case Some(u) => d[u := UserRecordOf(r, u)]
  }

  /** The dictionary has exactly the usernames of the rows that have one. */
  lemma {:induction false} UserDictKeys(rows: seq<Row>, u: Value)
    ensures u in UserDictOf(rows) <==> exists i :: 0 <= i < |rows| && UsernameOf(rows[i]) == Some(u)
    decreases |rows|
  {
    if rows != [] {
      var p := rows[..|rows| - 1];
      UserDictKeys(p, u);
      if exists i :: 0 <= i < |p| && UsernameOf(p[i]) == Some(u) {
        var i :| 0 <= i < |p| && UsernameOf(p[i]) == Some(u);
        assert rows[i] == p[i];
      }
      if exists i :: 0 <= i < |rows| && UsernameOf(rows[i]) == Some(u) {
        var i :| 0 <= i < |rows| && UsernameOf(rows[i]) == Some(u);
        if i < |p| {
          assert p[i] == rows[i];
        }
      }
    }
  }

  /** A username's entry comes from the last row carrying that username. */
  lemma {:induction false} UserDictLastWins(rows: seq<Row>, i: nat, u: Value)
    requires i < |rows| && UsernameOf(rows[i]) == Some(u)
    requires forall j :: i < j < |rows| ==> UsernameOf(rows[j]) != Some(u)
    ensures u in UserDictOf(rows) && UserDictOf(rows)[u] == UserRecordOf(rows[i], u)
    decreases |rows|
  {
    var p := rows[..|rows| - 1];
    if i < |rows| - 1 {
      assert p[i] == rows[i];
      forall j | i < j < |p|
        ensures UsernameOf(p[j]) != Some(u)
      {
        assert p[j] == rows[j];
      }
      UserDictLastWins(p, i, u);
    }
  }

  datatype PasswordEdit = UserNotFound | NoUsernameColumn | Edited(users: Table)

  /**
   * The change `update_user_password` makes to the Users table: the first row of the user
   * gets the new hash, and the time stamp when the table has an `updated_at` column.
   */
  function EditPassword(users: Table, username: string, hash: string, now: string): (r: PasswordEdit)
    ensures r == NoUsernameColumn <==> !IsEmpty(users) && "username" !in users.columns
    ensures r.Edited? <==> !IsEmpty(users) && "username" in users.columns
                           && exists j :: 0 <= j < |users.rows| && Cell(users.rows[j], "username") == Some(Str(username))
    ensures r.Edited? ==>
      var i := FirstMatch(users.rows, CellIs("username", Str(username))).value;
      && |r.users.rows| == |users.rows|
      && (forall j :: 0 <= j < |users.rows| && j != i ==> r.users.rows[j] == users.rows[j])
      && Cell(r.users.rows[i], "password") == Some(Str(hash))
      && Cell(r.users.rows[i], "updated_at") == (if "updated_at" in users.columns then Some(Str(now)) else Cell(users.rows[i], "updated_at"))
      && (forall c :: c != "password" && c != "updated_at" ==> Cell(r.users.rows[i], c) == Cell(users.rows[i], c))
  {
    if IsEmpty(users) then UserNotFound
    else if "username" !in users.columns then NoUsernameColumn
    else
      match FirstMatch(users.rows, CellIs("username", Str(username)))
      case None => UserNotFound
      case Some(i) =>
        var cells := if "updated_at" in users.columns
                     then map["password" := Str(hash), "updated_at" := Str(now)]
                     else map["password" := Str(hash)];
        Edited(SetCells(users, i, cells))
  }

  /** A sheet of the store as `get_data` reads it: an empty table when there is no such sheet. */
  function SheetOf(sheets: map<string, Table>, name: string): Table {
    if name in sheets then sheets[name] else EmptyTable
  }

  /** The store after replacing sheet `name` by `t`, which happens only when the remote accepts writes. */
  function Written(before: map<string, Table>, name: string, t: Table, writable: bool): (after: map<string, Table>)
    ensures writable ==> SheetOf(after, name) == t
    ensures forall other :: other != name ==> SheetOf(after, other) == SheetOf(before, other)
    ensures !writable ==> after == before
  {
    if writable then before[name := t] else before
  }

  /** How a call that may raise ended: with its boolean result, or with an exception. */
  datatype Attempt = Returned(ok: bool) | Raised

  class DataManager {
    var sheets: map<string, Table>
    var writable: bool

    constructor (initial: map<string, Table>, acceptsWrites: bool)
      ensures sheets == initial && writable == acceptsWrites
    {
      sheets := initial;
      writable := acceptsWrites;
    }

    /** `get_data`: the whole sheet, or an empty table when the sheet cannot be read. */
    function GetData(name: string): Table
      reads this
    {
      SheetOf(sheets, name)
    }

    /** The store after `update_data(name, t)`. */
    function AfterWrite(before: map<string, Table>, name: string, t: Table): map<string, Table>
      reads this
    {
      Written(before, name, t, writable)
    }

    /** The store after a write that happens only when `plan` holds a table. */
    function AfterPlannedWrite(before: map<string, Table>, name: string, plan: Option<Table>): map<string, Table>
      reads this
    {
      if plan.Some? then AfterWrite(before, name, plan.value) else before
    }

    /** `update_data`: replaces the whole sheet. */
    method UpdateData(name: string, t: Table) returns (ok: bool)
      modifies this`sheets
      ensures ok == writable
      ensures sheets == AfterWrite(old(sheets), name, t)
      ensures ok ==> GetData(name) == t
    {
      ok := writable;
      if ok {
        sheets := sheets[name := t];
      }
    }

    function GetUsers(): Table
      reads this
    {
      GetData(UsersSheet)
    }

    /** `get_missions` */
    function GetMissions(assignee: Option<string>): (t: Table)
      reads this
      ensures Selects(t, GetData(MissionsSheet), "assignee", assignee)
    {
      SelectBy(GetData(MissionsSheet), "assignee", assignee)
    }

    /** `get_logs`: filters on the `User` column, which holds display names. */
    function GetLogs(userId: Option<string>): (t: Table)
      reads this
      ensures Selects(t, GetData(LogsSheet), "User", userId)
    {
      SelectBy(GetData(LogsSheet), "User", userId)
    }

    /** `log_activity`: one row at the end of Logs. */
    method LogActivity(userName: string, activityType: string, content: string, reward: int, now: string)
      modifies this`sheets
      ensures sheets == AfterWrite(old(sheets), LogsSheet,
                                   AppendRow(old(GetData(LogsSheet)), LogRow(now, userName, activityType, content, reward)))
    {
      var logs := GetData(LogsSheet);
      var _ := UpdateData(LogsSheet, AppendRow(logs, LogRow(now, userName, activityType, content, reward)));
    }

    /** `update_logs` */
    method UpdateLogs(t: Table) returns (ok: bool)
      modifies this`sheets
      ensures ok == writable && sheets == AfterWrite(old(sheets), LogsSheet, t)
    {
      ok := UpdateData(LogsSheet, t);
    }

    function GetCalendar(): Table
      reads this
    {
      GetData(CalendarSheet)
    }

    /** `add_calendar_event` */
    method AddCalendarEvent(date: string, title: string, member: string, eventType: string, eventId: string)
      modifies this`sheets
      ensures sheets == AfterWrite(old(sheets), CalendarSheet,
                                   AppendRow(old(GetCalendar()), CalendarRow(eventId, date, title, member, eventType)))
    {
      var df := GetCalendar();
      var _ := UpdateData(CalendarSheet, AppendRow(df, CalendarRow(eventId, date, title, member, eventType)));
    }

    /** `update_calendar_event` */
    method UpdateCalendarEvent(eventId: string, date: string, title: string, member: string, eventType: string)
      modifies this`sheets
      ensures sheets == AfterPlannedWrite(old(sheets), CalendarSheet,
        EditById(old(GetCalendar()), "event_id", eventId,
                 map["date" := Str(date), "title" := Str(title), "member" := Str(member), "type" := Str(eventType)]))
    {
      var df := GetCalendar();
      if IsEmpty(df) {
        return;
      }
      if "event_id" !in df.columns {
        // df["event_id"] raises KeyError; nothing is written
        return;
      }
      var idx := FirstMatch(df.rows, RenderedIs("event_id", eventId));
      if idx.Some? {
        var edited := SetCells(StringifyColumn(df, "event_id"), idx.value,
                               map["date" := Str(date), "title" := Str(title), "member" := Str(member), "type" := Str(eventType)]);
        var _ := UpdateData(CalendarSheet, edited);
      }
    }

    /** `delete_calendar_event` */
    method DeleteCalendarEvent(eventId: string)
      modifies this`sheets
      ensures sheets == AfterPlannedWrite(old(sheets), CalendarSheet, DeleteById(old(GetCalendar()), "event_id", eventId))
    {
      var df := GetCalendar();
      if IsEmpty(df) || "event_id" !in df.columns {
        return;
      }
      var updated := DeleteById(df, "event_id", eventId);
      var _ := UpdateData(CalendarSheet, updated.value);
    }

    /** `get_weekly_schedule` */
    function GetWeeklySchedule(assignee: Option<string>): (t: Table)
      reads this
      ensures Selects(t, GetData(WeeklyScheduleSheet), "assignee", assignee)
    {
      SelectBy(GetData(WeeklyScheduleSheet), "assignee", assignee)
    }

    /** `add_weekly_schedule` (the caller's default assignee is "son1") */
    method AddWeeklySchedule(title: string, days: string, startTime: string, endTime: string, assignee: string, scheduleId: string)
      modifies this`sheets
      ensures sheets == AfterWrite(old(sheets), WeeklyScheduleSheet,
                                   AppendRow(old(GetData(WeeklyScheduleSheet)), ScheduleRow(scheduleId, title, days, startTime, endTime, assignee)))
    {
      var df := GetData(WeeklyScheduleSheet);
      var _ := UpdateData(WeeklyScheduleSheet, AppendRow(df, ScheduleRow(scheduleId, title, days, startTime, endTime, assignee)));
    }

    /** `delete_weekly_schedule` */
    method DeleteWeeklySchedule(scheduleId: string)
      modifies this`sheets
      ensures sheets == AfterPlannedWrite(old(sheets), WeeklyScheduleSheet,
                                          DeleteById(old(GetData(WeeklyScheduleSheet)), "schedule_id", scheduleId))
    {
      var df := GetData(WeeklyScheduleSheet);
      if IsEmpty(df) || "schedule_id" !in df.columns {
        return;
      }
      var updated := DeleteById(df, "schedule_id", scheduleId);
      var _ := UpdateData(WeeklyScheduleSheet, updated.value);
    }

    /** `get_reading_logs` */
    function GetReadingLogs(userId: Option<string>): (t: Table)
      reads this
      ensures Selects(t, GetData(ReadingSheet), "user_name", userId)
    {
      SelectBy(GetData(ReadingSheet), "user_name", userId)
    }

    /** `add_reading_log` */
    method AddReadingLog(readDate: string, bookType: string, bookTitle: string, author: string,
                         review: string, userName: string, readingId: string)
      modifies this`sheets
      ensures sheets == AfterWrite(old(sheets), ReadingSheet,
                                   AppendRow(old(GetData(ReadingSheet)), ReadingRow(readingId, readDate, bookType, bookTitle, author, review, userName)))
    {
      var df := GetData(ReadingSheet);
      var _ := UpdateData(ReadingSheet, AppendRow(df, ReadingRow(readingId, readDate, bookType, bookTitle, author, review, userName)));
    }

    /** `get_praise_logs`: missing praise columns are filled before filtering. */
    function GetPraiseLogs(userId: Option<string>): (t: Table)
      reads this
      ensures Selects(t, WithPraiseDefaults(GetData(PraiseSheet)), "user_name", userId)
    {
      SelectBy(WithPraiseDefaults(GetData(PraiseSheet)), "user_name", userId)
    }

    /** `add_praise_request`: the request starts waiting. */
    method AddPraiseRequest(content: string, userName: string, today: string, praiseId: string)
      modifies this`sheets
      ensures sheets == AfterWrite(old(sheets), PraiseSheet,
                                   AppendRow(old(GetData(PraiseSheet)), PraiseRow(praiseId, today, userName, content)))
    {
      var df := GetData(PraiseSheet);
      var _ := UpdateData(PraiseSheet, AppendRow(df, PraiseRow(praiseId, today, userName, content)));
    }

    /** `update_praise_status`: works on the filled table, which is what gets written. */
    method UpdatePraiseStatus(praiseId: string, newStatus: string)
      modifies this`sheets
      ensures sheets == AfterPlannedWrite(old(sheets), PraiseSheet,
                                          EditById(old(GetPraiseLogs(None)), "praise_id", praiseId, map["status" := Str(newStatus)]))
    {
      var df := GetPraiseLogs(None);
      if IsEmpty(df) {
        return;
      }
      var idx := FirstMatch(df.rows, RenderedIs("praise_id", praiseId));
      if idx.Some? {
        var edited := SetCells(StringifyColumn(df, "praise_id"), idx.value, map["status" := Str(newStatus)]);
        var _ := UpdateData(PraiseSheet, edited);
      }
    }

    /** `get_mission_definitions` */
    function GetMissionDefinitions(assignee: Option<string>): (t: Table)
      reads this
      ensures Selects(t, GetData(MissionDefinitionsSheet), "assignee", assignee)
    {
      SelectBy(GetData(MissionDefinitionsSheet), "assignee", assignee)
    }

    /** `update_mission_definitions` */
    method UpdateMissionDefinitions(t: Table) returns (ok: bool)
      modifies this`sheets
      ensures ok == writable && sheets == AfterWrite(old(sheets), MissionDefinitionsSheet, t)
    {
      ok := UpdateData(MissionDefinitionsSheet, t);
    }

    /** `add_mission_definition`: a new definition starts active. */
    method AddMissionDefinition(title: string, defType: string, frequency: string, assignee: string, note: string, defId: string)
      modifies this`sheets
      ensures sheets == AfterWrite(old(sheets), MissionDefinitionsSheet,
                                   AppendRow(old(GetData(MissionDefinitionsSheet)), DefinitionRow(defId, title, defType, frequency, assignee, note)))
    {
      var df := GetData(MissionDefinitionsSheet);
      var _ := UpdateData(MissionDefinitionsSheet, AppendRow(df, DefinitionRow(defId, title, defType, frequency, assignee, note)));
    }

    /** `get_user_dict`: the rows of Users folded into a dictionary keyed by username. */
    method GetUserDict() returns (d: map<Value, UserRecord>)
      ensures d == UserDictOf(GetUsers().rows)
    {
      var rows := GetUsers().rows;
      d := map[];
      var i := 0;
      while i < |rows|
        invariant 0 <= i <= |rows|
        invariant d == UserDictOf(rows[..i])
      {
        assert rows[..i + 1][..i] == rows[..i];
        var u := UsernameOf(rows[i]);
        if u.Some? {
          d := d[u.value := UserRecordOf(rows[i], u.value)];
        }
        i := i + 1;
      }
      assert rows[..|rows|] == rows;
    }

    /** `update_user_password`: False without a write when the table is empty or has no such user. */
    method UpdateUserPassword(username: string, hash: string, now: string) returns (r: Attempt)
      modifies this`sheets
      ensures var e := EditPassword(old(GetUsers()), username, hash, now);
        && (e == NoUsernameColumn ==> r == Raised && sheets == old(sheets))
        && (e == UserNotFound ==> r == Returned(false) && sheets == old(sheets))
        && (e.Edited? ==> r == Returned(writable) && sheets == AfterWrite(old(sheets), UsersSheet, e.users))
    {
      var users := GetUsers();
      match EditPassword(users, username, hash, now)
      case NoUsernameColumn =>
        r := Raised;
      case UserNotFound =>
        r := Returned(false);
      case Edited(t) =>
        var ok := UpdateData(UsersSheet, t);
        r := Returned(ok);
    }
  }

  /** A row logged for a user ends that user's log as `get_logs` reads it back. */
  lemma LoggedRowEndsUserLog(logs: Table, row: Row, user: string)
    requires user != "" && Cell(row, "User") == Some(Str(user))
    requires !IsEmpty(logs) && "User" in logs.columns
    ensures SelectBy(AppendRow(logs, row), "User", Some(user)).rows
         == SelectBy(logs, "User", Some(user)).rows + [row]
  {
    var test := CellIs("User", Str(user));
    FilterAppend(logs.rows, [row], test);
    assert Filter([row], test) == [row];
  }
}
