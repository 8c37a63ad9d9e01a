/**
 * The one-off cleanup script: every mission whose assignee text contains "son1" and whose
 * date text contains today's date is a ghost; all missions sharing an id with a ghost are
 * removed and the Missions sheet is rewritten without the helper text columns.
 */
module ClearGhostMissions {
  import opened Wrappers
  import opened Text
  import opened Sheet
  import opened DbManager

  const TargetUser := "son1"
  const DateText := "date_str"
  const AssigneeText := "assignee_str"

  /** A ghost: the assignee text contains "son1" and the date text contains today's date (containment, not equality). */
  function MarkedTest(today: string): RowTest {
    Both(RenderedHas("assignee", TargetUser), RenderedHas("date", today))
  }

  /** The missions with the `date_str` and `assignee_str` columns added. */
  function WithTextColumns(t: Table): (t': Table)
    ensures t'.columns == t.columns + {DateText, AssigneeText} && |t'.rows| == |t.rows|
    ensures forall i :: 0 <= i < |t.rows| ==>
      t'.rows[i] == t.rows[i][DateText := Str(Render(Cell(t.rows[i], "date")))][AssigneeText := Str(Render(Cell(t.rows[i], "assignee")))]
  {
    Table(t.columns + {DateText, AssigneeText},
          seq(|t.rows|, i requires 0 <= i < |t.rows| =>
            t.rows[i][DateText := Str(Render(Cell(t.rows[i], "date")))][AssigneeText := Str(Render(Cell(t.rows[i], "assignee")))]))
  }

  /** `mask_son1 & mask_date`, on the text columns. */
  function MaskToDelete(today: string): RowTest {
    Both(RenderedHas(AssigneeText, TargetUser), RenderedHas(DateText, today))
  }

  /** `missions.loc[mask, "mission_id"].tolist()` */
  function IdsOf(rows: seq<Row>): (ids: seq<Option<Value>>)
    ensures |ids| == |rows| && forall i :: 0 <= i < |rows| ==> ids[i] == Cell(rows[i], "mission_id")
  {
    seq(|rows|, i requires 0 <= i < |rows| => Cell(rows[i], "mission_id"))
  }

  /** The id of a listed row is among the listed ids. */
  lemma IdListed(rows: seq<Row>, x: Row)
    requires x in rows
    ensures Cell(x, "mission_id") in IdsOf(rows)
  {
    var k :| 0 <= k < |rows| && rows[k] == x;
    assert IdsOf(rows)[k] == Cell(x, "mission_id");
  }

  /** A row the mask selects has its id listed, so the id filter drops it. */
  lemma MaskedRowDropped(rows: seq<Row>, mask: RowTest, i: nat)
    requires i < |rows| && Holds(mask, rows[i])
    ensures !Holds(Not(CellIn("mission_id", IdsOf(Filter(rows, mask)))), rows[i])
  {
    var marked := Filter(rows, mask);
    assert rows[i] in marked;
    IdListed(marked, rows[i]);
    assert Holds(CellIn("mission_id", IdsOf(marked)), rows[i]);
  }

  /** A row that passes the id filter keeps an unlisted id once its helper cells are dropped. */
  lemma SurvivorIdUnlisted(cols: set<string>, rows: seq<Row>, ids: seq<Option<Value>>, x: Row)
    requires x in DropTextColumns(Table(cols, Filter(rows, Not(CellIn("mission_id", ids))))).rows
    ensures Cell(x, "mission_id") !in ids
  {
    var kept := Filter(rows, Not(CellIn("mission_id", ids)));
    var t := DropTextColumns(Table(cols, kept));
    var a :| 0 <= a < |t.rows| && t.rows[a] == x;
    var k := kept[a];
    assert Cell(k, "mission_id") !in ids by {
      assert k in kept;
      assert Holds(Not(CellIn("mission_id", ids)), k);
      assert !Holds(CellIn("mission_id", ids), k);
    }
    assert x == DropTextCells(k);
    DropTextCellsKeepsId(k);
  }

  lemma DropTextCellsKeepsId(r: Row)
    ensures Cell(DropTextCells(r), "mission_id") == Cell(r, "mission_id")
  {
    assert "mission_id" != DateText && "mission_id" != AssigneeText;
  }

  /** One row without the two helper cells. */
  function DropTextCells(r: Row): Row {
    r - {DateText, AssigneeText}
  }

  /** `del df["date_str"]; del df["assignee_str"]` */
  function DropTextColumns(t: Table): (t': Table)
    ensures t'.columns == t.columns - {DateText, AssigneeText} && |t'.rows| == |t.rows|
    ensures forall i :: 0 <= i < |t.rows| ==> t'.rows[i] == DropTextCells(t.rows[i])
  {
    Table(t.columns - {DateText, AssigneeText}, seq(|t.rows|, i requires 0 <= i < |t.rows| => DropTextCells(t.rows[i])))
  }

  /** The ids of today's ghosts, in order, as the script collects them. */
  function GhostIds(missions: Table, today: string): seq<Option<Value>> {
    IdsOf(Filter(WithTextColumns(missions).rows, MaskToDelete(today)))
  }

  /**
   * The Missions table the script writes, or None when it writes nothing: an empty sheet,
   * a missing date, assignee, title or id column (the script stops with a KeyError), or no ghost.
   */
  function GhostCleanup(missions: Table, today: string): Option<Table> {
    if IsEmpty(missions) || "date" !in missions.columns || "assignee" !in missions.columns then None
    else
      var m := WithTextColumns(missions);
      if "title" !in m.columns then None
      else
        var marked := Filter(m.rows, MaskToDelete(today));
        if |marked| == 0 || "mission_id" !in m.columns then None
        else Some(DropTextColumns(Table(m.columns, Filter(m.rows, Not(CellIn("mission_id", IdsOf(marked)))))))
  }

  /** The text-column mask picks exactly the ghosts. */
  lemma MaskMeansMarked(missions: Table, today: string, i: nat)
    requires i < |missions.rows|
    ensures Holds(MaskToDelete(today), WithTextColumns(missions).rows[i]) <==> Holds(MarkedTest(today), missions.rows[i])
  {
    var r := WithTextColumns(missions).rows[i];
    assert Cell(r, AssigneeText) == Some(Str(Render(Cell(missions.rows[i], "assignee"))));
    assert Cell(r, DateText) == Some(Str(Render(Cell(missions.rows[i], "date"))));
  }

  /** Two filters that agree row by row keep as many rows. */
  lemma {:induction false} FilterCountsAgree(a: seq<Row>, s: RowTest, b: seq<Row>, t: RowTest)
    requires |a| == |b| && forall i :: 0 <= i < |a| ==> (Holds(s, a[i]) <==> Holds(t, b[i]))
    ensures |Filter(a, s)| == |Filter(b, t)|
    decreases |a|
  {
    if a != [] {
      assert forall i :: 0 <= i < |a| - 1 ==> a[1..][i] == a[i + 1] && b[1..][i] == b[i + 1];
      FilterCountsAgree(a[1..], s, b[1..], t);
    }
  }

  /** `mask_to_delete.sum()` is the number of ghosts among the stored missions. */
  lemma GhostCount(missions: Table, today: string)
    ensures |Filter(WithTextColumns(missions).rows, MaskToDelete(today))| == |Filter(missions.rows, MarkedTest(today))|
  {
    forall i | 0 <= i < |missions.rows|
      ensures Holds(MaskToDelete(today), WithTextColumns(missions).rows[i]) <==> Holds(MarkedTest(today), missions.rows[i])
    {
      MaskMeansMarked(missions, today, i);
    }
    FilterCountsAgree(WithTextColumns(missions).rows, MaskToDelete(today), missions.rows, MarkedTest(today));
  }

  /** Adding the helper cells leaves the id alone. */
  lemma TextColumnsKeepId(missions: Table, i: nat)
    requires i < |missions.rows|
    ensures Cell(WithTextColumns(missions).rows[i], "mission_id") == Cell(missions.rows[i], "mission_id")
  {
  }

  /** Dropping the helper cells undoes adding them. */
  lemma TextColumnsDropped(missions: Table, i: nat)
    requires i < |missions.rows|
    ensures DropTextCells(WithTextColumns(missions).rows[i]) == DropTextCells(missions.rows[i])
  {
    var r := missions.rows[i];
    var r' := WithTextColumns(missions).rows[i];
    assert forall c :: c in DropTextCells(r') <==> c in DropTextCells(r);
  }

  /** Removal is by id: at least as many missions go as there are ghosts. */
  lemma RemovesAtLeastTheGhosts(missions: Table, today: string)
    requires GhostCleanup(missions, today).Some?
    ensures |GhostCleanup(missions, today).value.rows| + |Filter(missions.rows, MarkedTest(today))| <= |missions.rows|
  {
    var m := WithTextColumns(missions);
    var mask := MaskToDelete(today);
    var marked := Filter(m.rows, mask);
    var keep := Not(CellIn("mission_id", IdsOf(marked)));
    forall i | 0 <= i < |m.rows|
      ensures Holds(mask, m.rows[i]) <==> Holds(MarkedTest(today), missions.rows[i])
    {
      MaskMeansMarked(missions, today, i);
    }
    FilterSameVerdicts(m.rows, missions.rows, mask, MarkedTest(today));
    forall i | 0 <= i < |m.rows| && Holds(mask, m.rows[i])
      ensures !Holds(keep, m.rows[i])
    {
      MaskedRowDropped(m.rows, mask, i);
    }
    FilterExclusive(m.rows, keep, mask);
  }

  /** No mission that survives shares its id with a ghost, and the helper columns are gone. */
  lemma SurvivorsAreNotGhosts(missions: Table, today: string)
    requires GhostCleanup(missions, today).Some?
    ensures var t := GhostCleanup(missions, today).value;
      && DateText !in t.columns && AssigneeText !in t.columns
      && forall x, j :: x in t.rows && 0 <= j < |missions.rows| && Holds(MarkedTest(today), missions.rows[j])
                        ==> Cell(x, "mission_id") != Cell(missions.rows[j], "mission_id")
  {
    var m := WithTextColumns(missions);
    var mask := MaskToDelete(today);
    var marked := Filter(m.rows, mask);
    var ids := IdsOf(marked);
    var t := GhostCleanup(missions, today).value;
    assert t == DropTextColumns(Table(m.columns, Filter(m.rows, Not(CellIn("mission_id", ids)))));
    forall x, j | x in t.rows && 0 <= j < |missions.rows| && Holds(MarkedTest(today), missions.rows[j])
      ensures Cell(x, "mission_id") != Cell(missions.rows[j], "mission_id")
    {
      MaskMeansMarked(missions, today, j);
      assert m.rows[j] in marked;
      IdListed(marked, m.rows[j]);
      SurvivorIdUnlisted(m.columns, m.rows, ids, x);
    }
  }

  /** Every mission whose id is not a ghost's survives, as it was apart from the helper cells. */
  lemma NonGhostIdsSurvive(missions: Table, today: string, j: nat)
    requires GhostCleanup(missions, today).Some? && j < |missions.rows|
    requires Cell(missions.rows[j], "mission_id") !in GhostIds(missions, today)
    ensures DropTextCells(missions.rows[j]) in GhostCleanup(missions, today).value.rows
  {
    var m := WithTextColumns(missions);
    var ids := GhostIds(missions, today);
    var keep := Not(CellIn("mission_id", ids));
    var kept := Filter(m.rows, keep);
    assert m.rows[j] in kept by {
      TextColumnsKeepId(missions, j);
      assert Holds(keep, m.rows[j]);
    }
    var a :| 0 <= a < |kept| && kept[a] == m.rows[j];
    assert DropTextCells(m.rows[j]) == DropTextCells(missions.rows[j]) by {
      TextColumnsDropped(missions, j);
    }
    assert GhostCleanup(missions, today).value == DropTextColumns(Table(m.columns, kept));
  }

  /** Without a ghost the script writes nothing. */
  lemma NothingWithoutGhosts(missions: Table, today: string)
    requires forall i :: 0 <= i < |missions.rows| ==> !Holds(MarkedTest(today), missions.rows[i])
    ensures GhostCleanup(missions, today) == None
  {
    var m := WithTextColumns(missions);
    forall i | 0 <= i < |m.rows|
      ensures !Holds(MaskToDelete(today), m.rows[i])
    {
      MaskMeansMarked(missions, today, i);
    }
    FilterKeepsNone(m.rows, MaskToDelete(today));
  }

  /** Containment, not equality: a timestamped date and an assignee "son10" are ghosts too. */
  lemma ContainmentExample()
    ensures Holds(MarkedTest("2025-01-05"), map["assignee" := Str("son10"), "date" := Str("2025-01-05 09:00")])
  {
    assert OccursAt("son10", TargetUser, 0);
    assert OccursAt("2025-01-05 09:00", "2025-01-05", 0);
  }

  /** The script body, with today's `%Y-%m-%d` date passed in; `count` is the number of ghosts found. */
  method ClearGhostMissions(db: DataManager, today: string) returns (count: nat)
    modifies db`sheets
    ensures db.sheets == db.AfterPlannedWrite(old(db.sheets), MissionsSheet, GhostCleanup(old(db.GetData(MissionsSheet)), today))
    ensures var missions := old(db.GetData(MissionsSheet));
      count == if IsEmpty(missions) || "date" !in missions.columns || "assignee" !in missions.columns || "title" !in missions.columns
               then 0 else |Filter(missions.rows, MarkedTest(today))|
  {
    count := 0;
    var missions := db.GetMissions(None);
    GhostCount(missions, today);
    if IsEmpty(missions) {
      return;
    }
    if "date" !in missions.columns || "assignee" !in missions.columns {
      return;
    }
    missions := WithTextColumns(missions);
    if "title" !in missions.columns {
      return;
    }
    var marked := Filter(missions.rows, MaskToDelete(today));
    count := |marked|;
    if count > 0 {
      if "mission_id" !in missions.columns {
        return;
      }
      var idsToDelete := IdsOf(marked);
      var cleaned := Table(missions.columns, Filter(missions.rows, Not(CellIn("mission_id", idsToDelete))));
      cleaned := DropTextColumns(cleaned);
      var _ := db.UpdateData(MissionsSheet, cleaned);
    }
  }
}
