/**
 * The one-off migration of the configured users into the Users sheet: one row per
 * configured username, in configuration order, replacing the whole sheet once the
 * operator agrees to overwrite existing data.
 */
module MigrateUsersPhase1 {
  import opened Wrappers
  import opened Sheet
  import opened DbManager

  /** A configured user: the username and the settings given for it. */
  type ConfiguredUser = (string, map<string, Value>)

  const UserColumns: set<string> := {"username", "password", "name", "email", "role", "stamp_korea", "updated_at"}

  /** The admins among the configured users. */
  predicate IsAdmin(username: string) {
    username == "dad" || username == "mom"
  }

  /** `user_data.get(key, default)` */
  function Setting(data: map<string, Value>, key: string, default: Value): Value {
    if key in data then data[key] else default
  }

  /** The Users row of one configured user. */
  function MigrationRow(username: string, data: map<string, Value>): (r: Row)
    ensures r.Keys == UserColumns
    ensures Cell(r, "username") == Some(Str(username))
    ensures Cell(r, "role") == Some(Str(if IsAdmin(username) then "admin" else "user"))
    ensures Cell(r, "updated_at") == Some(Str(""))
  {
    map["username" := Str(username),
        "password" := Setting(data, "password", Str("")),
        "name" := Setting(data, "name", Str(username)),
        "email" := Setting(data, "email", Str("")),
        "role" := Str(if IsAdmin(username) then "admin" else "user"),
        "stamp_korea" := Setting(data, "stamp_korea", Num(0)),
        "updated_at" := Str("")]
  }

  function MigrationRows(users: seq<ConfiguredUser>): (rows: seq<Row>)
    ensures |rows| == |users|
    ensures forall i :: 0 <= i < |users| ==> rows[i] == MigrationRow(users[i].0, users[i].1)
  {
    seq(|users|, i requires 0 <= i < |users| => MigrationRow(users[i].0, users[i].1))
  }

  /** `pd.DataFrame(new_rows)`: no columns at all when there are no rows. */
  function MigrationTable(users: seq<ConfiguredUser>): Table {
    Table(if users == [] then {} else UserColumns, MigrationRows(users))
  }

  /** A user configured with nothing but a name gets the defaults. */
  lemma MigrationDefaults(username: string)
    ensures MigrationRow(username, map[]) == map["username" := Str(username), "password" := Str(""), "name" := Str(username),
      "email" := Str(""), "role" := Str(if IsAdmin(username) then "admin" else "user"), "stamp_korea" := Num(0), "updated_at" := Str("")]
  {
  }

  predicate DistinctUsernames(users: seq<ConfiguredUser>) {
    forall i, j :: 0 <= i < j < |users| ==> users[i].0 != users[j].0
  }

  /** After the migration every configured user logs in with the configured password, name and email, and the role the script assigns. */
  lemma MigratedUserReadBack(users: seq<ConfiguredUser>, i: nat)
    requires DistinctUsernames(users) && i < |users| && users[i].0 != ""
    ensures var u := Str(users[i].0);
      var data := users[i].1;
      && u in UserDictOf(MigrationRows(users))
      && UserDictOf(MigrationRows(users))[u] == UserRecord(Setting(data, "name", u), Setting(data, "password", Str("")),
                                                           Setting(data, "email", Str("")), Str(if IsAdmin(users[i].0) then "admin" else "user"))
  {
    var rows := MigrationRows(users);
    var u := Str(users[i].0);
    assert UsernameOf(rows[i]) == Some(u);
    forall j | i < j < |rows|
      ensures UsernameOf(rows[j]) != Some(u)
    {
      assert Cell(rows[j], "username") == Some(Str(users[j].0));
    }
    UserDictLastWins(rows, i, u);
  }

  /** `response.lower() == "yes"`: no other character lowercases to y, e or s. */
  predicate AnswersYes(response: string) {
    |response| == 3 && response[0] in "yY" && response[1] in "eE" && response[2] in "sS"
  }

  /** The script's exit status when it decides without writing, or the write it attempts. */
  datatype Decision = Exit(code: int) | Write(users: seq<ConfiguredUser>)

  /**
   * What the script does before writing. `config` is the `credentials.usernames` table of the
   * secrets file, None when missing; `response` is the operator's answer when asked.
   */
  function Decide(existing: Table, config: Option<seq<ConfiguredUser>>, response: string): (d: Decision)
    ensures config.None? ==> d == Exit(1)
    ensures d.Write? ==> config == Some(d.users) && (IsEmpty(existing) || AnswersYes(response))
    ensures config.Some? && !IsEmpty(existing) && !AnswersYes(response) ==> d.Exit?
    ensures config.Some? && (IsEmpty(existing) || ("username" in existing.columns && "name" in existing.columns && AnswersYes(response)))
            ==> d == Write(config.value)
    ensures config.Some? && !IsEmpty(existing) && !("username" in existing.columns && "name" in existing.columns)
            ==> d == Exit(1)
    ensures config.Some? && !IsEmpty(existing) && "username" in existing.columns && "name" in existing.columns && !AnswersYes(response)
            ==> d == Exit(0)
  {
    if config.None? then Exit(1)
    else if !IsEmpty(existing) && !("username" in existing.columns && "name" in existing.columns) then Exit(1)
    else if !IsEmpty(existing) && !AnswersYes(response) then Exit(0)
    else Write(config.value)
  }

  /** The script: returns its exit status; a successful write replaces the whole Users sheet. */
  method Migrate(db: DataManager, config: Option<seq<ConfiguredUser>>, response: string) returns (exitCode: int)
    modifies db`sheets
    ensures match Decide(old(db.GetUsers()), config, response)
      case Exit(code) => exitCode == code && db.sheets == old(db.sheets)
      case Write(users) =>
        && db.sheets == db.AfterWrite(old(db.sheets), UsersSheet, MigrationTable(users))
        && exitCode == (if db.writable && users != [] then 0 else 1)
  {
    if config.None? {
      return 1;
    }
    var users := config.value;
    var existing := db.GetData(UsersSheet);
    if !IsEmpty(existing) {
      if !("username" in existing.columns && "name" in existing.columns) {
        // printing the existing usernames and names raises a KeyError
        return 1;
      }
      if !AnswersYes(response) {
        return 0;
      }
    }
    var newRows: seq<Row> := [];
    var i := 0;
    while i < |users|
      invariant 0 <= i <= |users|
      invariant newRows == MigrationRows(users[..i])
    {
      newRows := newRows + [MigrationRow(users[i].0, users[i].1)];
      i := i + 1;
    }
    assert users[..|users|] == users;
    var ok := db.UpdateData(UsersSheet, Table(if newRows == [] then {} else UserColumns, newRows));
    if !ok {
      return 1;
    }
    // listing the migrated usernames raises a KeyError when the new table has no columns
    exitCode := if newRows == [] then 1 else 0;
  }
}
