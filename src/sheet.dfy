/**
 * The tabular values the application reads from and writes to the spreadsheet:
 * a table is a set of column names and a sequence of rows, and a row maps a
 * column to its cell. A column missing from a row's map is NaN in that row.
 */
module Sheet {
  import opened Wrappers
  import opened Text

  datatype Value = Str(s: string) | Num(n: int) | Flag(b: bool)

  type Row = map<string, Value>

  datatype Table = Table(columns: set<string>, rows: seq<Row>)

  /** `pd.DataFrame()`, what a failed or missing sheet read yields. */
  const EmptyTable: Table := Table({}, [])

  /** `df.empty`: no rows or no columns. */
  predicate IsEmpty(t: Table) {
    |t.rows| == 0 || t.columns == {}
  }

  /** Every row only has cells in the table's columns. */
  predicate WellFormed(t: Table) {
    forall r :: r in t.rows ==> r.Keys <= t.columns
  }

  /** The cell of `r` in column `c`; None is NaN. */
  function Cell(r: Row, c: string): Option<Value> {
    if c in r then Some(r[c]) else None
  }

  /** Python's `str()` of a cell. */
  function Render(v: Option<Value>): string {
    match v
    case None => "nan"
    case Some(Str(s)) => s
    case Some(Num(n)) => IntToDecimal(n)
    case Some(Flag(b)) => if b then "True" else "False"
  }

  /** Python's truth value of a cell: NaN is true, "", 0 and False are not. */
  predicate Truthy(v: Option<Value>) {
    match v
    case None => true
    case Some(Str(s)) => s != ""
    case Some(Num(n)) => n != 0
    case Some(Flag(b)) => b
  }

  /** A Python argument given and truthy (`if key and ...`). */
  predicate Given(key: Option<string>) {
    key.Some? && key.value != ""
  }

  /** Sets cell `c` of `r` to `v` (NaN removes it). */
  function Put(r: Row, c: string, v: Option<Value>): (r': Row)
    ensures Cell(r', c) == v
    ensures forall d :: d != c ==> Cell(r', d) == Cell(r, d)
  {
    if v.Some? then r[c := v.value] else r - {c}
  }

  /** The row masks the application builds, as pandas evaluates them. */
  datatype RowTest =
    | CellIs(col: string, v: Value)               // df[col] == v (NaN never equals)
    | CellIn(col: string, vs: seq<Option<Value>>) // df[col].isin(vs) (isin matches NaN to NaN)
    | RenderedIs(col: string, s: string)          // df[col].astype(str) == s
    | RenderedHas(col: string, s: string)         // df[col].astype(str).str.contains(s)
    | Not(test: RowTest)                          // ~mask, and != for the == masks
    | Both(left: RowTest, right: RowTest)         // mask1 & mask2

  predicate Holds(test: RowTest, r: Row) {
    match test
    case CellIs(c, v) => Cell(r, c) == Some(v)
    case CellIn(c, vs) => Cell(r, c) in vs
    case RenderedIs(c, s) => Render(Cell(r, c)) == s
    case RenderedHas(c, s) => Contains(Render(Cell(r, c)), s)
    case Not(t) => !Holds(t, r)
    case Both(a, b) => Holds(a, r) && Holds(b, r)
  }

  /** `df[mask]`: the rows passing the test, in their order. */
  function Filter(rows: seq<Row>, test: RowTest): (kept: seq<Row>)
    ensures |kept| <= |rows|
    ensures forall r :: r in kept ==> r in rows && Holds(test, r)
    ensures forall i :: 0 <= i < |rows| && Holds(test, rows[i]) ==> rows[i] in kept
    decreases |rows|
  {
    if rows == [] then []
    else (if Holds(test, rows[0]) then [rows[0]] else []) + Filter(rows[1..], test)
  }

  /** Filtering works row by row, so it keeps the order of the rows it keeps. */
  lemma {:induction false} FilterAppend(a: seq<Row>, b: seq<Row>, test: RowTest)
    ensures Filter(a + b, test) == Filter(a, test) + Filter(b, test)
    decreases |a|
  {
    if a == [] {
      assert a + b == b;
    } else {
      assert (a + b)[1..] == a[1..] + b;
      FilterAppend(a[1..], b, test);
    }
  }

  /** A filter that every row passes keeps the rows as they are. */
  lemma {:induction false} FilterKeepsAll(rows: seq<Row>, test: RowTest)
    requires forall i :: 0 <= i < |rows| ==> Holds(test, rows[i])
    ensures Filter(rows, test) == rows
    decreases |rows|
  {
    if rows != [] {
      FilterKeepsAll(rows[1..], test);
    }
  }

  /** A filter that no row passes keeps nothing. */
  lemma {:induction false} FilterKeepsNone(rows: seq<Row>, test: RowTest)
    requires forall i :: 0 <= i < |rows| ==> !Holds(test, rows[i])
    ensures Filter(rows, test) == []
    decreases |rows|
  {
    if rows != [] {
      FilterKeepsNone(rows[1..], test);
    }
  }

  /** A mask and its negation split the rows between them. */
  lemma {:induction false} FilterPartition(rows: seq<Row>, test: RowTest)
    ensures |Filter(rows, test)| + |Filter(rows, Not(test))| == |rows|
    decreases |rows|
  {
    if rows != [] {
      FilterPartition(rows[1..], test);
    }
  }

  /** Rows that pass or fail two tests alike, position by position, keep equally many rows. */
  lemma {:induction false} FilterSameVerdicts(a: seq<Row>, b: seq<Row>, testA: RowTest, testB: RowTest)
    requires |a| == |b|
    requires forall i :: 0 <= i < |a| ==> (Holds(testA, a[i]) <==> Holds(testB, b[i]))
    ensures |Filter(a, testA)| == |Filter(b, testB)|
    decreases |a|
  {
    if a != [] {
      FilterSameVerdicts(a[1..], b[1..], testA, testB);
    }
  }

  /** Every row passing `drop` fails `keep`: the rows kept number at most those not dropped. */
  lemma {:induction false} FilterExclusive(rows: seq<Row>, keep: RowTest, drop: RowTest)
    requires forall i :: 0 <= i < |rows| && Holds(drop, rows[i]) ==> !Holds(keep, rows[i])
    ensures |Filter(rows, keep)| + |Filter(rows, drop)| <= |rows|
    decreases |rows|
  {
    if rows != [] {
      FilterExclusive(rows[1..], keep, drop);
    }
  }

  /** `df[df[col] == key]` behind the guard `if key and not df.empty and col in df.columns` that every reader uses. */
  function SelectBy(t: Table, col: string, key: Option<string>): (r: Table)
    ensures Selects(r, t, col, key)
  {
    if Given(key) && !IsEmpty(t) && col in t.columns
    then Table(t.columns, Filter(t.rows, CellIs(col, Str(key.value))))
    else t
  }

  /** `r` is what a reader filtering `t` on `col == key` returns: the matching rows, or all of `t` when it cannot filter. */
  ghost predicate Selects(r: Table, t: Table, col: string, key: Option<string>) {
    && r.columns == t.columns
    && (forall x :: x in r.rows ==> x in t.rows)
    && if Given(key) && !IsEmpty(t) && col in t.columns then
         && (forall x :: x in r.rows ==> Cell(x, col) == Some(Str(key.value)))
         && (forall x :: x in t.rows && Cell(x, col) == Some(Str(key.value)) ==> x in r.rows)
       else r == t
  }

  /** Selecting from rows followed by more rows gives the selection from each, in that order. */
  lemma SelectByAppend(cols: set<string>, a: seq<Row>, b: seq<Row>, col: string, key: Option<string>)
    requires Given(key) && cols != {} && col in cols && a + b != []
    ensures SelectBy(Table(cols, a + b), col, key).rows
         == Filter(a, CellIs(col, Str(key.value))) + Filter(b, CellIs(col, Str(key.value)))
  {
    FilterAppend(a, b, CellIs(col, Str(key.value)));
  }

  /** `pd.concat([df, pd.DataFrame([row])])`, or the new row alone when `df.empty`. */
  function AppendRow(t: Table, r: Row): (t': Table)
    ensures |t'.rows| == (if IsEmpty(t) then 1 else |t.rows| + 1)
    ensures t'.rows[|t'.rows| - 1] == r
    ensures !IsEmpty(t) ==> t'.rows[..|t.rows|] == t.rows && t.columns <= t'.columns
    ensures WellFormed(t) ==> WellFormed(t')
  {
    if IsEmpty(t) then Table(r.Keys, [r])
    else Table(t.columns + r.Keys, t.rows + [r])
  }

  /** `pd.concat([a, b], ignore_index=True)` */
  function Concat(a: Table, b: Table): (t: Table)
    ensures |t.rows| == |a.rows| + |b.rows|
    ensures t.rows[..|a.rows|] == a.rows && t.rows[|a.rows|..] == b.rows
    ensures WellFormed(a) && WellFormed(b) ==> WellFormed(t)
  {
    Table(a.columns + b.columns, a.rows + b.rows)
  }

  /** `df[col] = df[col].astype(str)` */
  function StringifyColumn(t: Table, col: string): (t': Table)
    ensures t'.columns == t.columns + {col} && |t'.rows| == |t.rows|
    ensures forall i :: 0 <= i < |t.rows| ==>
      Cell(t'.rows[i], col) == Some(Str(Render(Cell(t.rows[i], col))))
      && forall c :: c != col ==> Cell(t'.rows[i], c) == Cell(t.rows[i], c)
  {
    Table(t.columns + {col}, seq(|t.rows|, i requires 0 <= i < |t.rows| => t.rows[i][col := Str(Render(Cell(t.rows[i], col)))]))
  }

  /** Index of the first row passing `test` (`df[mask].index[0]`), None when the mask is all false. */
  function FirstMatch(rows: seq<Row>, test: RowTest): (r: Option<nat>)
    ensures r.Some? ==> r.value < |rows| && Holds(test, rows[r.value])
    ensures r.Some? ==> forall j :: 0 <= j < r.value ==> !Holds(test, rows[j])
    ensures r.None? ==> forall j :: 0 <= j < |rows| ==> !Holds(test, rows[j])
  {
    FirstMatchFrom(rows, test, 0)
  }

  function FirstMatchFrom(rows: seq<Row>, test: RowTest, from: nat): (r: Option<nat>)
    requires from <= |rows|
    ensures r.Some? ==> from <= r.value < |rows| && Holds(test, rows[r.value])
    ensures r.Some? ==> forall j :: from <= j < r.value ==> !Holds(test, rows[j])
    ensures r.None? ==> forall j :: from <= j < |rows| ==> !Holds(test, rows[j])
    decreases |rows| - from
  {
    if from == |rows| then None
    else if Holds(test, rows[from]) then Some(from)
    else FirstMatchFrom(rows, test, from + 1)
  }

  /** `df.at[i, c] = v` for every `c := v` in `cells`: the other rows and the other cells stay. */
  function SetCells(t: Table, i: nat, cells: map<string, Value>): (t': Table)
    requires i < |t.rows|
    ensures t'.columns == t.columns + cells.Keys && |t'.rows| == |t.rows|
    ensures forall j :: 0 <= j < |t.rows| && j != i ==> t'.rows[j] == t.rows[j]
    ensures forall c :: c in cells ==> Cell(t'.rows[i], c) == Some(cells[c])
    ensures forall c :: c !in cells ==> Cell(t'.rows[i], c) == Cell(t.rows[i], c)
    ensures WellFormed(t) ==> WellFormed(t')
  {
    Table(t.columns + cells.Keys, t.rows[i := t.rows[i] + cells])
  }
}
