/**
 * The parts of authentication that are plain logic: resolving a display name to a
 * user id, picking the child a parent is looking at, and turning the outcome of a
 * password update into the message shown to the user.
 */
module AuthUtils {
  import opened DbManager

  /** `USER_DISPLAY_NAMES`: user id to the name shown on screen. */
  const UserDisplayNames: map<string, string> :=
    map["son1" := "큰보물", "son2" := "작은보물", "dad" := "아빠", "mom" := "엄마"]

  /** `get_user_id_map`: display name to user id. */
  const UserIdMap: map<string, string> :=
    map["큰보물" := "son1", "작은보물" := "son2", "아빠" := "dad", "엄마" := "mom"]

  /** The child looked at when nothing else is known. */
  const DefaultChild := "son1"

  /** The name `get_target_child_id` looks up: `target_child_name`, else `name`, else "User". */
  function TargetName(session: map<string, string>): (name: string)
    ensures "target_child_name" in session ==> name == session["target_child_name"]
    ensures "target_child_name" !in session && "name" in session ==> name == session["name"]
    ensures "target_child_name" !in session && "name" !in session ==> name == "User"
  {
    if "target_child_name" in session then session["target_child_name"]
    else if "name" in session then session["name"]
    else "User"
  }

  /** `get_target_child_id`: the id of the target name, "son1" for any name not in the map. */
  function TargetChildId(session: map<string, string>): (id: string)
    ensures id in UserDisplayNames
    ensures TargetName(session) in UserIdMap ==> UserDisplayNames[id] == TargetName(session)
    ensures TargetName(session) !in UserIdMap ==> id == DefaultChild
  {
    var name := TargetName(session);
    if name in UserIdMap then UserIdMap[name] else DefaultChild
  }

  /** The id map is the inverse of the display names, in both directions. */
  lemma UserIdMapInvertsDisplayNames()
    ensures forall id :: id in UserDisplayNames ==> UserDisplayNames[id] in UserIdMap && UserIdMap[UserDisplayNames[id]] == id
    ensures forall n :: n in UserIdMap ==> UserIdMap[n] in UserDisplayNames && UserDisplayNames[UserIdMap[n]] == n
  {
  }

  /** With neither key in the session the target is the default child. */
  lemma EmptySessionTargetsDefault(session: map<string, string>)
    requires "target_child_name" !in session && "name" !in session
    ensures TargetChildId(session) == DefaultChild
  {
    assert "User" !in UserIdMap by {
      assert forall n :: n in UserIdMap ==> |n| != 4 || n[0] != 'U';
    }
  }

  const PasswordChanged := "비밀번호가 변경되었습니다. (모든 기기에 즉시 적용됨)"
  const UserMissing := "사용자를 찾을 수 없습니다."
  const ErrorPrefix := "오류 발생: "

  /**
   * The pair `change_password` returns for the outcome of the database update;
   * `error` is the text of the exception when the update raised.
   */
  function ChangePasswordResult(outcome: Attempt, error: string): (r: (bool, string))
    ensures r.0 <==> outcome == Returned(true)
    ensures outcome == Returned(true) ==> r.1 == PasswordChanged
    ensures outcome == Returned(false) ==> r.1 == UserMissing
    ensures outcome == Raised ==> r.1 == ErrorPrefix + error
  {
    match outcome
    case Returned(ok) => if ok then (true, PasswordChanged) else (false, UserMissing)
    case Raised => (false, ErrorPrefix + error)
  }

  /** `change_password`, with the hash computed beforehand and the clock passed in. */
  method ChangePassword(db: DataManager, username: string, hash: string, now: string, error: string)
    returns (ok: bool, message: string)
    modifies db`sheets
    ensures var e := EditPassword(old(db.GetUsers()), username, hash, now);
      && (ok <==> e.Edited? && db.writable)
      && (ok ==> message == PasswordChanged && db.GetUsers() == e.users)
      && (!e.Edited? ==> db.sheets == old(db.sheets))
      && (e == NoUsernameColumn ==> message == ErrorPrefix + error)
      && (e == UserNotFound ==> message == UserMissing)
      && (e.Edited? && !ok ==> message == UserMissing)
      && db.sheets == (if e.Edited? then db.AfterWrite(old(db.sheets), UsersSheet, e.users) else old(db.sheets))
  {
    var outcome := db.UpdateUserPassword(username, hash, now);
    ok, message := ChangePasswordResult(outcome, error).0, ChangePasswordResult(outcome, error).1;
  }
}
