/**
 * Daily mission generation: each active mission definition of a child that is due
 * today becomes a new "Assigned" mission, unless a mission with the same title
 * already exists today. A session set of "child_date" keys stops repeated runs.
 */
module MissionGenerator {
  import opened Wrappers
  import opened Text
  import opened Sheet
  import opened DbManager

  /** Weekday labels indexed by `datetime.weekday()` (Monday is 0). */
  const WeekdayLabels: seq<string> := ["월", "화", "수", "목", "금", "토", "일"]

  const Assigned := "Assigned"

  /** Columns of the table built from the new missions. */
  const MissionColumns: set<string> := {"mission_id", "date", "assignee", "title", "status", "rejection_reason"}

  /** `_should_create_mission`: a routine is due on the weekdays named in its frequency, a one-time definition on its date. */
  function ShouldCreateMission(defType: Option<Value>, freq: Option<Value>, weekdayLabel: string, today: string): (due: bool)
    ensures defType == Some(Str("Routine")) ==> (due <==> Contains(Render(freq), weekdayLabel))
    ensures defType == Some(Str("OneTime")) ==> (due <==> Render(freq) == today)
    ensures defType != Some(Str("Routine")) && defType != Some(Str("OneTime")) ==> !due
  {
    if defType == Some(Str("Routine")) then Contains(Render(freq), weekdayLabel)
    else if defType == Some(Str("OneTime")) then Render(freq) == today
    else false
  }

  /** `row.get("active", True)`: a missing or NaN flag counts as active. */
  predicate Active(def: Row) {
    Truthy(Cell(def, "active"))
  }

  /** `row.get("note", "")` */
  function NoteOf(def: Row, columns: set<string>): Option<Value> {
    if "note" in columns then Cell(def, "note") else Some(Str(""))
  }

  /**
   * A title already in the list. A NaN title is never found again: this is Python's `in` on NaNs that
   * are distinct float objects, as a float-typed column yields; an object column that shares the one
   * `np.nan` object, which `in` finds by identity, is not modelled.
   */
  predicate Seen(title: Option<Value>, titles: seq<Option<Value>>) {
    title.Some? && title in titles
  }

  /** The mission created from a definition. */
  function MissionRow(id: string, today: string, target: string, title: Option<Value>, note: Option<Value>): (m: Row)
    ensures Cell(m, "mission_id") == Some(Str(id)) && Cell(m, "date") == Some(Str(today))
    ensures Cell(m, "assignee") == Some(Str(target)) && Cell(m, "status") == Some(Str(Assigned))
    ensures Cell(m, "title") == title && Cell(m, "rejection_reason") == note
    ensures m.Keys <= MissionColumns
  {
    var fixed := map["mission_id" := Str(id), "date" := Str(today), "assignee" := Str(target), "status" := Str(Assigned)];
    Put(Put(fixed, "title", title), "rejection_reason", note)
  }

  /** `m` is the mission made with id `id` from definition `def`, which is active and due today. */
  predicate MissionFrom(m: Row, id: string, def: Row, columns: set<string>, target: string, today: string, dayLabel: string) {
    && Active(def)
    && ShouldCreateMission(Cell(def, "type"), Cell(def, "frequency"), dayLabel, today)
    && m == MissionRow(id, today, target, Cell(def, "title"), NoteOf(def, columns))
  }

  /** The missions made so far and the titles seen so far. */
  datatype GenState = GenState(added: seq<Row>, titles: seq<Option<Value>>)

  /** The definitions' columns the loop reads with `row[...]`, which raises when one is missing. */
  predicate ReadableDefinitions(columns: set<string>) {
    "title" in columns && "type" in columns && "frequency" in columns
  }

  /** One pass of the loop over a definition; None when reading it raises. */
  function Step(st: GenState, def: Row, columns: set<string>, target: string, today: string,
                weekdayLabel: string, uuid: nat -> string): Option<GenState>
  {
    if !Active(def) then Some(st)
    else if !ReadableDefinitions(columns) then None
    else
      var title := Cell(def, "title");
      if ShouldCreateMission(Cell(def, "type"), Cell(def, "frequency"), weekdayLabel, today) && !Seen(title, st.titles)
      then Some(GenState(st.added + [MissionRow(uuid(|st.added|), today, target, title, NoteOf(def, columns))],
                         st.titles + [title]))
      else Some(st)
  }

  /** The loop over the definitions in order, starting from today's existing titles. */
  function Generate(defs: seq<Row>, columns: set<string>, existing: seq<Option<Value>>, target: string,
                    today: string, weekdayLabel: string, uuid: nat -> string): Option<GenState>
    decreases |defs|
  {
    if defs == [] then Some(GenState([], existing))
    else
      match Generate(defs[..|defs| - 1], columns, existing, target, today, weekdayLabel, uuid)
      case None => None
      case Some(st) => Step(st, defs[|defs| - 1], columns, target, today, weekdayLabel, uuid)
  }

  /** Titles of the child's missions dated today; None when the date or title column is missing. */
  function ExistingTitles(missions: Table, today: string): (r: Option<seq<Option<Value>>>)
    ensures r.Some? ==> forall t :: t in r.value ==> exists m :: m in missions.rows && Cell(m, "date") == Some(Str(today)) && Cell(m, "title") == t
    ensures r.Some? && !IsEmpty(missions) ==>
      forall m :: m in missions.rows && Cell(m, "date") == Some(Str(today)) ==> Cell(m, "title") in r.value
    ensures r.None? <==> !IsEmpty(missions) && ("date" !in missions.columns || "title" !in missions.columns)
  {
    if IsEmpty(missions) then Some([])
    else if "date" !in missions.columns || "title" !in missions.columns then None
    else
      var todays := Filter(missions.rows, CellIs("date", Str(today)));
      var titles := seq(|todays|, i requires 0 <= i < |todays| => Cell(todays[i], "title"));
      assert forall m :: m in missions.rows && Cell(m, "date") == Some(Str(today)) ==> Cell(m, "title") in titles by {
        forall m | m in missions.rows && Cell(m, "date") == Some(Str(today))
          ensures Cell(m, "title") in titles
        {
          var k :| 0 <= k < |missions.rows| && missions.rows[k] == m;
          assert Holds(CellIs("date", Str(today)), missions.rows[k]);
          var j :| 0 <= j < |todays| && todays[j] == m;
          assert titles[j] == Cell(m, "title");
        }
      }
      assert forall t :: t in titles ==> exists m :: m in missions.rows && Cell(m, "date") == Some(Str(today)) && Cell(m, "title") == t by {
        forall t | t in titles
          ensures exists m :: m in missions.rows && Cell(m, "date") == Some(Str(today)) && Cell(m, "title") == t
        {
          var j :| 0 <= j < |titles| && titles[j] == t;
          assert todays[j] in todays;
        }
      }
      Some(titles)
  }

  /** The missions the loop makes for the child today; None when reading raises or there are no definitions. */
  function NewMissions(defsAll: Table, missionsAll: Table, target: string, today: string,
                       weekday: nat, uuid: nat -> string): Option<seq<Row>>
    requires weekday < 7
  {
    var defs := SelectBy(defsAll, "assignee", Some(target));
    if IsEmpty(defs) then None
    else
      match ExistingTitles(SelectBy(missionsAll, "assignee", Some(target)), today)
      case None => None
      case Some(existing) =>
        match Generate(defs.rows, defs.columns, existing, target, today, WeekdayLabels[weekday], uuid)
        case None => None
        case Some(st) => Some(st.added)
  }

  /** The stored missions followed by the new ones (`pd.concat`, or the new ones alone over an empty sheet). */
  function WithNewMissions(missionsAll: Table, added: seq<Row>): (t: Table)
    ensures var kept := if IsEmpty(missionsAll) then [] else missionsAll.rows;
      t.rows == kept + added
  {
    var addedTable := Table(MissionColumns, added);
    if IsEmpty(missionsAll) then addedTable else Concat(missionsAll, addedTable)
  }

  /**
   * The Missions table `ensure_todays_missions` writes, or None when it writes nothing:
   * no definitions, a missing column, or no new mission.
   */
  function PlanMissions(defsAll: Table, missionsAll: Table, target: string, today: string,
                        weekday: nat, uuid: nat -> string): Option<Table>
    requires weekday < 7
  {
    match NewMissions(defsAll, missionsAll, target, today, weekday, uuid)
    case None => None
    case Some(added) => if added == [] then None else Some(WithNewMissions(missionsAll, added))
  }

  /** The loop only ever appends: the titles seen are the existing ones followed by the new missions' titles. */
  lemma {:induction false} GenerateTitles(defs: seq<Row>, columns: set<string>, existing: seq<Option<Value>>, target: string,
                                          today: string, dayLabel: string, uuid: nat -> string)
    requires Generate(defs, columns, existing, target, today, dayLabel, uuid).Some?
    ensures var st := Generate(defs, columns, existing, target, today, dayLabel, uuid).value;
      && |st.titles| == |existing| + |st.added|
      && st.titles[..|existing|] == existing
      && forall i :: 0 <= i < |st.added| ==> st.titles[|existing| + i] == Cell(st.added[i], "title")
    decreases |defs|
  {
    if defs != [] {
      GenerateTitles(defs[..|defs| - 1], columns, existing, target, today, dayLabel, uuid);
    }
  }

  /** No new mission repeats a title already present today, and the new titles are pairwise distinct. */
  lemma {:induction false} GeneratedTitlesFresh(defs: seq<Row>, columns: set<string>, existing: seq<Option<Value>>, target: string,
                                                today: string, dayLabel: string, uuid: nat -> string)
    requires Generate(defs, columns, existing, target, today, dayLabel, uuid).Some?
    ensures var st := Generate(defs, columns, existing, target, today, dayLabel, uuid).value;
      && (forall i :: 0 <= i < |st.added| ==> !Seen(Cell(st.added[i], "title"), existing))
      && (forall i, j :: 0 <= i < j < |st.added| && Cell(st.added[i], "title").Some? ==> Cell(st.added[i], "title") != Cell(st.added[j], "title"))
    decreases |defs|
  {
    if defs != [] {
      var p := defs[..|defs| - 1];
      GeneratedTitlesFresh(p, columns, existing, target, today, dayLabel, uuid);
      GenerateTitles(p, columns, existing, target, today, dayLabel, uuid);
      var st := Generate(p, columns, existing, target, today, dayLabel, uuid).value;
      var st' := Generate(defs, columns, existing, target, today, dayLabel, uuid).value;
      if |st'.added| > |st.added| {
        var t := Cell(st'.added[|st.added|], "title");
        assert !Seen(t, st.titles);
        forall i | 0 <= i < |st.added| && Cell(st.added[i], "title").Some?
          ensures Cell(st.added[i], "title") != t
        {
          assert st.titles[|existing| + i] == Cell(st.added[i], "title");
        }
        if t.Some? {
          assert forall k :: 0 <= k < |existing| ==> existing[k] == st.titles[k];
        }
      }
    }
  }

  /** Every new mission comes from an active definition due today, and carries today's date, the child, "Assigned" and the note. */
  lemma {:induction false} GeneratedFromDueDefinitions(defs: seq<Row>, columns: set<string>, existing: seq<Option<Value>>, target: string,
                                                       today: string, dayLabel: string, uuid: nat -> string)
    requires Generate(defs, columns, existing, target, today, dayLabel, uuid).Some?
    ensures var st := Generate(defs, columns, existing, target, today, dayLabel, uuid).value;
      forall i :: 0 <= i < |st.added| ==>
        exists k :: 0 <= k < |defs| && MissionFrom(st.added[i], uuid(i), defs[k], columns, target, today, dayLabel)
    decreases |defs|
  {
    if defs != [] {
      var p := defs[..|defs| - 1];
      GeneratedFromDueDefinitions(p, columns, existing, target, today, dayLabel, uuid);
      var st := Generate(p, columns, existing, target, today, dayLabel, uuid).value;
      var st' := Generate(defs, columns, existing, target, today, dayLabel, uuid).value;
      assert st'.added[..|st.added|] == st.added;
      forall i | 0 <= i < |st'.added|
        ensures exists k :: 0 <= k < |defs| && MissionFrom(st'.added[i], uuid(i), defs[k], columns, target, today, dayLabel)
      {
        if i < |st.added| {
          assert st'.added[i] == st.added[i];
          var k :| 0 <= k < |p| && MissionFrom(st.added[i], uuid(i), p[k], columns, target, today, dayLabel);
          assert p[k] == defs[k];
        } else {
          assert MissionFrom(st'.added[i], uuid(i), defs[|defs| - 1], columns, target, today, dayLabel);
        }
      }
    }
  }

  /** A due, active definition whose title is not NaN ends up with its title among the titles seen. */
  lemma {:induction false} DueDefinitionCovered(defs: seq<Row>, columns: set<string>, existing: seq<Option<Value>>, target: string,
                                                today: string, dayLabel: string, uuid: nat -> string, k: nat)
    requires Generate(defs, columns, existing, target, today, dayLabel, uuid).Some?
    requires k < |defs| && Active(defs[k]) && Cell(defs[k], "title").Some?
    requires ShouldCreateMission(Cell(defs[k], "type"), Cell(defs[k], "frequency"), dayLabel, today)
    ensures Cell(defs[k], "title") in Generate(defs, columns, existing, target, today, dayLabel, uuid).value.titles
    decreases |defs|
  {
    var p := defs[..|defs| - 1];
    var st := Generate(p, columns, existing, target, today, dayLabel, uuid).value;
    var st' := Generate(defs, columns, existing, target, today, dayLabel, uuid).value;
    GenerateTitles(p, columns, existing, target, today, dayLabel, uuid);
    GenerateTitles(defs, columns, existing, target, today, dayLabel, uuid);
    assert st'.titles[..|st.titles|] == st.titles;
    if k < |p| {
      assert p[k] == defs[k];
      DueDefinitionCovered(p, columns, existing, target, today, dayLabel, uuid, k);
      var j :| 0 <= j < |st.titles| && st.titles[j] == Cell(defs[k], "title");
      assert st'.titles[j] == st.titles[j];
    } else {
      if !Seen(Cell(defs[k], "title"), st.titles) {
        assert st'.titles == st.titles + [Cell(defs[k], "title")];
        assert st'.titles[|st.titles|] == Cell(defs[k], "title");
      } else {
        var j :| 0 <= j < |st.titles| && st.titles[j] == Cell(defs[k], "title");
        assert st'.titles[j] == st.titles[j];
      }
    }
  }

  /** A write keeps every stored mission, in order, and appends the new ones after them. */
  lemma PlanAppendsAfterExisting(defsAll: Table, missionsAll: Table, target: string, today: string, weekday: nat, uuid: nat -> string)
    requires weekday < 7
    requires PlanMissions(defsAll, missionsAll, target, today, weekday, uuid).Some?
    ensures var t := PlanMissions(defsAll, missionsAll, target, today, weekday, uuid).value;
      var kept := if IsEmpty(missionsAll) then [] else missionsAll.rows;
      && |t.rows| > |kept|
      && t.rows[..|kept|] == kept
      && forall i :: |kept| <= i < |t.rows| ==>
           Cell(t.rows[i], "date") == Some(Str(today)) && Cell(t.rows[i], "assignee") == Some(Str(target))
           && Cell(t.rows[i], "status") == Some(Str(Assigned))
  {
    var added := NewMissions(defsAll, missionsAll, target, today, weekday, uuid).value;
    NewMissionsFields(defsAll, missionsAll, target, today, weekday, uuid);
    var kept := if IsEmpty(missionsAll) then [] else missionsAll.rows;
    var t := WithNewMissions(missionsAll, added);
    forall i | |kept| <= i < |t.rows|
      ensures Cell(t.rows[i], "date") == Some(Str(today)) && Cell(t.rows[i], "assignee") == Some(Str(target))
           && Cell(t.rows[i], "status") == Some(Str(Assigned))
    {
      assert t.rows[i] == added[i - |kept|];
    }
  }

  /** Every new mission is dated today, assigned to the child and "Assigned". */
  lemma NewMissionsFields(defsAll: Table, missionsAll: Table, target: string, today: string, weekday: nat, uuid: nat -> string)
    requires weekday < 7
    requires NewMissions(defsAll, missionsAll, target, today, weekday, uuid).Some?
    ensures var added := NewMissions(defsAll, missionsAll, target, today, weekday, uuid).value;
      forall m :: m in added ==>
        Cell(m, "date") == Some(Str(today)) && Cell(m, "assignee") == Some(Str(target)) && Cell(m, "status") == Some(Str(Assigned))
  {
    var defs := SelectBy(defsAll, "assignee", Some(target));
    var existing := ExistingTitles(SelectBy(missionsAll, "assignee", Some(target)), today).value;
    var dayLabel := WeekdayLabels[weekday];
    GeneratedFromDueDefinitions(defs.rows, defs.columns, existing, target, today, dayLabel, uuid);
  }

  /**
   * No mission made today repeats a title the child already has today: a stored row of the child dated
   * today shares no title with a new one (NaN titles aside, which never match).
   */
  lemma NewMissionsNotAlreadyToday(defsAll: Table, missionsAll: Table, target: string, today: string, weekday: nat, uuid: nat -> string)
    requires weekday < 7
    requires NewMissions(defsAll, missionsAll, target, today, weekday, uuid).Some?
    ensures var added := NewMissions(defsAll, missionsAll, target, today, weekday, uuid).value;
      WellFormed(missionsAll) ==>
        forall i, m :: 0 <= i < |added| && m in missionsAll.rows && Cell(added[i], "title").Some?
                       && Cell(m, "assignee") == Some(Str(target)) && Cell(m, "date") == Some(Str(today))
                       ==> Cell(added[i], "title") != Cell(m, "title")
  {
    var defs := SelectBy(defsAll, "assignee", Some(target));
    var mine := SelectBy(missionsAll, "assignee", Some(target));
    var existing := ExistingTitles(mine, today).value;
    var dayLabel := WeekdayLabels[weekday];
    GeneratedTitlesFresh(defs.rows, defs.columns, existing, target, today, dayLabel, uuid);
    var added := NewMissions(defsAll, missionsAll, target, today, weekday, uuid).value;
    if WellFormed(missionsAll) {
      forall i, m | 0 <= i < |added| && m in missionsAll.rows && Cell(added[i], "title").Some?
                    && Cell(m, "assignee") == Some(Str(target)) && Cell(m, "date") == Some(Str(today))
        ensures Cell(added[i], "title") != Cell(m, "title")
      {
        assert m in mine.rows;
        assert "date" in m.Keys;
        assert !IsEmpty(mine);
        assert Cell(m, "title") in existing;
      }
    }
  }

  /** The session key marking a child's day as done. */
  function CheckKey(target: string, today: string): string {
    target + "_" + today
  }

  /** The loop of `ensure_todays_missions` over the child's definitions; `raised` when reading a definition raises. */
  method GenerateMissions(defs: Table, existing: seq<Option<Value>>, target: string, today: string,
                          dayLabel: string, uuid: nat -> string) returns (raised: bool, newMissions: seq<Row>)
    ensures raised <==> Generate(defs.rows, defs.columns, existing, target, today, dayLabel, uuid).None?
    ensures !raised ==> newMissions == Generate(defs.rows, defs.columns, existing, target, today, dayLabel, uuid).value.added
  {
    newMissions := [];
    var titles := existing;
    var i := 0;
    while i < |defs.rows|
      invariant 0 <= i <= |defs.rows|
      invariant Generate(defs.rows[..i], defs.columns, existing, target, today, dayLabel, uuid) == Some(GenState(newMissions, titles))
    {
      assert defs.rows[..i + 1][..i] == defs.rows[..i];
      var def := defs.rows[i];
      if Active(def) {
        if !ReadableDefinitions(defs.columns) {
          // row["title"], row["type"] or row["frequency"] raises
          assert Generate(defs.rows[..i + 1], defs.columns, existing, target, today, dayLabel, uuid).None?;
          GenerateFailsAfter(defs.rows, i + 1, defs.columns, existing, target, today, dayLabel, uuid);
          return true, newMissions;
        }
        var title := Cell(def, "title");
        if ShouldCreateMission(Cell(def, "type"), Cell(def, "frequency"), dayLabel, today) && !Seen(title, titles) {
          newMissions := newMissions + [MissionRow(uuid(|newMissions|), today, target, title, NoteOf(def, defs.columns))];
          titles := titles + [title];
        }
      }
      i := i + 1;
    }
    assert defs.rows[..|defs.rows|] == defs.rows;
    raised := false;
  }

  /**
   * `ensure_todays_missions`, with today's date, weekday and the id generator passed in;
   * `checked` is the session's set of marked keys and `checked'` the set afterwards.
   */
  method EnsureTodaysMissions(db: DataManager, checked: set<string>, target: string, today: string,
                              weekday: nat, uuid: nat -> string) returns (checked': set<string>)
    requires weekday < 7
    modifies db`sheets
    ensures CheckKey(target, today) in checked ==> checked' == checked && db.sheets == old(db.sheets)
    ensures CheckKey(target, today) !in checked ==>
      var plan := PlanMissions(old(db.GetData(MissionDefinitionsSheet)), old(db.GetData(MissionsSheet)), target, today, weekday, uuid);
      && db.sheets == db.AfterPlannedWrite(old(db.sheets), MissionsSheet, plan)
      && checked' == (if plan.Some? && db.writable then checked + {CheckKey(target, today)} else checked)
  {
    checked' := checked;
    var key := CheckKey(target, today);
    if key in checked {
      return;
    }
    var defs := db.GetMissionDefinitions(Some(target));
    if IsEmpty(defs) {
      return;
    }
    var existingTitles := ExistingTitles(db.GetMissions(Some(target)), today);
    if existingTitles.None? {
      // the date or title column is missing: the error is reported and nothing is written
      return;
    }
    var raised, newMissions := GenerateMissions(defs, existingTitles.value, target, today, WeekdayLabels[weekday], uuid);
    if raised {
      return;
    }
    if newMissions != [] {
      var final := WithNewMissions(db.GetData(MissionsSheet), newMissions);
      var ok := db.UpdateData(MissionsSheet, final);
      if ok {
        checked' := checked + {key};
      }
    }
  }

  /** Once a definition raises, the whole loop raises. */
  lemma {:induction false} GenerateFailsAfter(defs: seq<Row>, n: nat, columns: set<string>, existing: seq<Option<Value>>, target: string,
                                              today: string, dayLabel: string, uuid: nat -> string)
    requires n <= |defs| && Generate(defs[..n], columns, existing, target, today, dayLabel, uuid).None?
    ensures Generate(defs, columns, existing, target, today, dayLabel, uuid).None?
    decreases |defs| - n
  {
    if n < |defs| {
      assert defs[..n + 1][..n] == defs[..n];
      GenerateFailsAfter(defs, n + 1, columns, existing, target, today, dayLabel, uuid);
    } else {
      assert defs[..n] == defs;
    }
  }

  /** A routine listing several weekdays is due on each of them, and a one-time definition only on its date. */
  lemma ShouldCreateExamples()
    ensures ShouldCreateMission(Some(Str("Routine")), Some(Str("월,수,금")), WeekdayLabels[2], "2025-01-01")
    ensures !ShouldCreateMission(Some(Str("Routine")), Some(Str("월,수,금")), WeekdayLabels[1], "2025-01-01")
    ensures ShouldCreateMission(Some(Str("OneTime")), Some(Str("2025-01-01")), WeekdayLabels[0], "2025-01-01")
    ensures !ShouldCreateMission(None, Some(Str("월")), WeekdayLabels[0], "2025-01-01")
  {
    assert OccursAt("월,수,금", "수", 2);
    forall i | 0 <= i <= 5
      ensures !OccursAt("월,수,금", "화", i)
    {
      if i + 1 <= 5 {
        assert "월,수,금"[i..i + 1][0] == "월,수,금"[i];
      }
    }
  }
}
