# family-mission-manager: a verified model of its table and string logic

family-mission-manager is a small Streamlit app. A family uses it to hand out daily missions to
children, approve them, and reward them with stamps and coupons. All state lives in a Google
spreadsheet, one worksheet per table. This project models the app's deterministic core in Dafny:

- **Coupon strings** (`CouponUtils`): the log-line coupon parser, the minutes extractor, and the
  minutes formatter. A round-trip lemma links the extractor and the formatter.
- **Daily mission generation** (`MissionGenerator`): the weekday/date predicate and the
  generation loop of `ensure_todays_missions`. The session's "checked" map is a set of keys.
- **Mission table edits** (`MissionManager`):
  - `save_pending_changes` and `save_history`, as loops that update the first row with a
    matching id;
  - `save_definitions`, as "other children's rows, then the edited rows".
- **Reward logging** (`RewardHandler`): which rows are appended to the Logs sheet, and in what
  order.
- **The store** (`DbManager`): a class `DataManager` whose `sheets` field maps worksheet names to
  tables. `UpdateData` replaces a whole sheet, and only when the remote accepts writes
  (`writable`). Every `get_*`, `add_*`, `update_*` and `delete_*` operation of the named core is
  a function or method over that field.
- **Small maps** (`UiHelpers`, `AuthUtils`): the status-label maps and their inverse, the
  display-name to id resolution, and the result mapping of `change_password`.
- **Maintenance scripts**:
  - `ClearGhostMissions`: the ghost-mission cleanup, as one method.
  - `MigrateUsersPhase1`: the user migration, as one method, with its exit decisions.

A pandas DataFrame is `Sheet.Table(columns, rows)`. Each row is a `map<string, Value>`, and a key
missing from a row's map is a NaN cell. `Render` is Python's `str()` of a cell (NaN renders as
"nan"). `Truthy` is Python's truth value, under which NaN is true. Row masks are a small datatype
`RowTest`, evaluated by `Holds`.

The clock, today's date, the weekday index, fresh uuids and the operator's typed answer are
parameters. Where one call needs several uuids, the parameter is a function `nat -> string`.

Where the test scripts and the code disagree, the model follows the code. Two cases:

- A praise request is stored with status "대기 중", not "Pending".
- `save_history` never deletes a row, because its two id lists are read from the same table (NaN ids aside, see "## Left out").

## Model

| member | source | states |
|---|---|---|
| CouponUtils.ParseCouponName | modules/coupon_utils.py:24-26 | None exactly when "쿠폰:" does not occur in the content; otherwise a stripped string shorter than the content |
| CouponUtils.ParseSplitsAtFirstTag | modules/coupon_utils.py:25 | the result is the stripped text after the FIRST "쿠폰:"; later occurrences stay in the result |
| CouponUtils.ParseCouponNameOfGrant | modules/coupon_utils.py:24-25 | for a name without surrounding whitespace, parsing "쿠폰: " + name gives back the name |
| CouponUtils.GrantedContentParses | modules/coupon_utils.py:24-25 | parsing "쿠폰: " + name gives the stripped " " + name |
| CouponUtils.NoCouponWithoutTagLetter | modules/coupon_utils.py:24-26 | content without the letter 쿠 never parses to a coupon name |
| CouponUtils.ParseStampExample | modules/coupon_utils.py:21-22 | the documented example: a stamp line "도장: 참 잘했어요" gives None |
| CouponUtils.SearchMinutes | modules/coupon_utils.py:44 | the regex search: the leftmost position at or after `from` where digits, optional whitespace and 분 follow; None when no position matches |
| CouponUtils.ExtractMinutes | modules/coupon_utils.py:44-45 | 0 when no position matches; otherwise the number captured at the leftmost match |
| CouponUtils.MinutesAtRun | modules/coupon_utils.py:44-45 | a digit run directly before 분, with no earlier match, is the value extracted |
| CouponUtils.NoMinutesInRun | modules/coupon_utils.py:44 | a digit run followed by something other than whitespace or 분 is no match |
| CouponUtils.FormatBelowHour | modules/coupon_utils.py:71 | below 60 the text is the decimal number followed by 분 |
| CouponUtils.FormatWholeHours | modules/coupon_utils.py:65-70 | a whole number of hours is formatted as hours followed by 시간 alone |
| CouponUtils.FormatHoursAndMinutes | modules/coupon_utils.py:65-69 | otherwise from 60 up it is hours, 시간, a space, minutes mod 60 and 분 |
| CouponUtils.ExtractBelowHour | modules/coupon_utils.py:44-45 | the minutes of "<digits>분" are the digits' value |
| CouponUtils.NoMinutesBeforeHourMark | modules/coupon_utils.py:44 | the hours digits of "<h>시간…" never match, since 시 is not 분 |
| CouponUtils.ExtractWholeHours | modules/coupon_utils.py:44-45 | "<h>시간" carries no minutes, so the extracted value is 0 |
| CouponUtils.MinutesAtEnd | modules/coupon_utils.py:44-45 | a trailing "<m>분" with no earlier match gives m |
| CouponUtils.ExtractHoursAndMinutes | modules/coupon_utils.py:44-45 | "<h>시간 <m>분" gives m, not h |
| CouponUtils.NoMinutesBeforeMinutes | modules/coupon_utils.py:44 | no match starts inside "<h>시간 " |
| CouponUtils.ExtractFormattedBelowHour | modules/coupon_utils.py:44-71 | extracting from the formatted n < 60 gives n back |
| CouponUtils.ExtractFormattedWholeHours | modules/coupon_utils.py:44-70 | extracting from a formatted whole hour gives 0 = n mod 60 |
| CouponUtils.ExtractFormattedHoursAndMinutes | modules/coupon_utils.py:44-69 | extracting from a formatted "h시간 m분" gives n mod 60 |
| CouponUtils.ExtractFormattedMinutes | modules/coupon_utils.py:44-71 | round trip for every n >= 0: the minutes extracted from the formatted n are n mod 60, hence n itself below an hour |
| CouponUtils.ExtractMinutesExample | modules/coupon_utils.py:39-40 | the documented example "게임쿠폰 20분" gives 20 |
| CouponUtils.ExtractNoMinutesExample | modules/coupon_utils.py:41-42 | the documented example "보너스쿠폰" gives 0 |
| CouponUtils.FormatMinutesExamples | modules/coupon_utils.py:57-63 | the documented examples: 90, 60 and 45 |
| CouponUtils.DigitRunEnd | modules/coupon_utils.py:44 | `\d+` is greedy: the run ends at the first non-digit or the end of the text |
| CouponUtils.SpaceRunEnd | modules/coupon_utils.py:44 | `\s*` is greedy: the run ends at the first non-space or the end of the text |
| Text.Find | modules/coupon_utils.py:24-25 | `"쿠폰:" in content` and the split point: None exactly when there is no occurrence, otherwise the leftmost occurrence |
| Text.Strip | modules/coupon_utils.py:25 | `str.strip()`: the result is one slice of the input with only whitespace outside it, and has no surrounding whitespace itself |
| Text.StripIsSlice | modules/coupon_utils.py:25 | what `strip()` keeps is a slice of the input, and everything cut on either side is whitespace |
| Text.StripAfterSpaces | modules/coupon_utils.py:25 | stripping leading whitespace off an already trimmed text gives that text |
| Text.DecimalRoundTrip | modules/coupon_utils.py:45-71 | `int(str(n)) == n` for every n >= 0 |
| MissionGenerator.ShouldCreateMission | modules/mission/mission_generator.py:105-110 | Routine is due iff the weekday label occurs in str(freq); OneTime iff str(freq) equals today; any other type never |
| MissionGenerator.ShouldCreateExamples | modules/mission/mission_generator.py:105-110 | with the weekday table 월..일: "월,수,금" is due on Wednesday and not Tuesday; a missing type is never due |
| MissionGenerator.MissionRow | modules/mission/mission_generator.py:68-75 | a new mission has the fresh id, today's date, the target, the definition's title, status "Assigned" and the note as rejection_reason |
| MissionGenerator.ExistingTitles | modules/mission/mission_generator.py:43-47 | the titles are exactly those of the target's missions dated today: each listed title belongs to such a mission and every such mission's title is listed; None iff a non-empty sheet lacks the date or title column |
| MissionGenerator.GenerateTitles | modules/mission/mission_generator.py:44-76 | the title list grows by exactly the new missions' titles, after the existing ones |
| MissionGenerator.GeneratedTitlesFresh | modules/mission/mission_generator.py:67-76 | no new mission repeats a title present today, and new titles are pairwise distinct |
| MissionGenerator.NewMissionsNotAlreadyToday | modules/mission/mission_generator.py:43-76 | no mission made today shares a (non-NaN) title with a stored mission of the same child dated today |
| MissionGenerator.GeneratedFromDueDefinitions | modules/mission/mission_generator.py:54-76 | each new mission comes from an active definition that is due today; inactive definitions produce nothing |
| MissionGenerator.DueDefinitionCovered | modules/mission/mission_generator.py:54-76 | every active, due definition's title ends up among today's titles (created now or already there) |
| MissionGenerator.WithNewMissions | modules/mission/mission_generator.py:79-84 | the written table is the existing missions followed by the new ones |
| MissionGenerator.PlanAppendsAfterExisting | modules/mission/mission_generator.py:68-84 | existing missions are kept in order and the appended rows carry today, the target and "Assigned" |
| MissionGenerator.NewMissionsFields | modules/mission/mission_generator.py:68-75 | every generated mission carries today, the target and "Assigned" |
| MissionGenerator.GenerateMissions | modules/mission/mission_generator.py:54-76 | the loop raises exactly when the fold raises, and otherwise returns the fold's new missions |
| MissionGenerator.GenerateFailsAfter | modules/mission/mission_generator.py:54-60 | once reading a definition raises, the whole loop has raised |
| MissionGenerator.EnsureTodaysMissions | modules/mission/mission_generator.py:29-90 | a key already checked changes nothing; otherwise the planned table is written, and the key is marked only when a non-empty plan was written |
| MissionManager.StatusLabelRoundTrip | modules/mission/mission_manager.py:35 | a shown status label is saved back as its own status, whatever the default (the label map is modules/mission/ui_helpers.py lines 13-20) |
| MissionManager.MatchOf | modules/mission/mission_manager.py:37-38 | the first stored row whose mission_id equals the record's; a NaN id matches nothing |
| MissionManager.PendingStep | modules/mission/mission_manager.py:32-42 | a record changes only its first matching row, and does so exactly when status or str(reason) differs, setting the mapped status (default "Pending") and the reason text; a differing status is applied even when the table has no rejection_reason column, which the update then adds; an unmatched record changes nothing; None exactly when a column it reads is missing (the stored reason is read only when the status is unchanged) |
| MissionManager.PendingFoldKeepsOthers | modules/mission/mission_manager.py:31-42 | after the loop, rows whose id no record carries are unchanged, ids are kept and no row is added |
| MissionManager.PendingFoldNoChange | modules/mission/mission_manager.py:39-46 | with no counted change the table is exactly the stored one |
| MissionManager.PendingFoldFailsAfter | modules/mission/mission_manager.py:31-49 | a record whose read raises makes the whole save raise |
| MissionManager.FoldFailsAfter | modules/mission/mission_manager.py:31-49 | the first record that raises ends the loop with the exception |
| MissionManager.ApplyPendingRecord | modules/mission/mission_manager.py:32-42 | one loop pass computes exactly one PendingStep |
| MissionManager.ApplyPendingRecords | modules/mission/mission_manager.py:29-42 | the loop computes the table and change count of PendingFold, or raises when it does |
| MissionManager.SavePendingChanges | modules/mission/mission_manager.py:16-49 | writes Missions only when at least one change was counted and nothing raised; returns True iff that write succeeded |
| MissionManager.NoHistoryDeletion | modules/mission/mission_manager.py:110-118 | deleted_ids is always empty |
| MissionManager.HistoryStep | modules/mission/mission_manager.py:121-130 | a matched row gets the mapped status (default "Assigned") and the reason text; an unmatched record changes nothing; None exactly when the record lacks mission_id or 상태 or the table lacks mission_id |
| MissionManager.HistoryFoldKeepsOthers | modules/mission/mission_manager.py:121-130 | rows whose id no record carries are unchanged, ids are kept and no row is removed |
| MissionManager.HistoryFoldFailsAfter | modules/mission/mission_manager.py:121-135 | a record whose read raises makes the whole save raise |
| MissionManager.ApplyHistoryRecords | modules/mission/mission_manager.py:121-130 | the loop computes HistoryFold, or raises when it does |
| MissionManager.HistoryFoldWrites | modules/mission/mission_manager.py:121-130 | with the id and status columns present, every record is applied without raising and no column is lost |
| MissionManager.HistoryPlanWrites | modules/mission/mission_manager.py:110-132 | with the id and status columns present, save_history always has a table to write |
| MissionManager.SaveHistory | modules/mission/mission_manager.py:99-135 | always writes the updated Missions unless a read raises; returns the write's result, which is the store's writability whenever the id and status columns exist |
| MissionManager.FillColumn | modules/mission/mission_manager.py:70 | assigning a scalar to a column sets that cell in every row and changes nothing else |
| MissionManager.OthersOf | modules/mission/mission_manager.py:67-73 | the kept rows never belong to the target and are no more than the stored rows |
| MissionManager.OthersKeptInOrder | modules/mission/mission_manager.py:71 | the kept rows are exactly the other assignees' rows, in their original order |
| MissionManager.MissingAssigneeMeansDefault | modules/mission/mission_manager.py:69-71 | without an assignee column every stored row counts as "son1": all are dropped for son1, all kept for others |
| MissionManager.EnsureId | modules/mission/mission_manager.py:84-88 | a missing or blank id becomes the fresh id; any other id is kept as its string |
| MissionManager.SavedRow | modules/mission/mission_manager.py:79-88 | an edited row is relabelled to the seven columns, its assignee forced to the target and its id ensured |
| MissionManager.SavedRows | modules/mission/mission_manager.py:76-88 | one saved row per edited row, in order, each with its own fresh id |
| MissionManager.DefinitionsToSave | modules/mission/mission_manager.py:64-91 | the other children's rows followed by the edited rows; the relabelling raises unless the editor has seven columns |
| MissionManager.SelectOthersThenSaved | modules/db_manager.py:381-382 | selecting the target from "others then saved" gives exactly the saved rows |
| MissionManager.SavedDefinitionsReadBack | modules/db_manager.py:379-383 | what save_definitions intends: reading the target's definitions back gives exactly the saved rows |
| MissionManager.SaveDefinitionsAsWritten | modules/mission/mission_manager.py:51-97 | as written: the table goes to "Mission_Definitions" and the sheet the app reads is unchanged |
| MissionManager.SaveDefinitions | modules/mission/mission_manager.py:51-93 | corrected: writes "MissionDefinitions", after which get_mission_definitions(target) returns the saved rows; update_mission_definitions writes that sheet |
| MissionManager.SheetNamesDiffer | modules/mission/mission_manager.py:94 | the sheet written and the sheet read are different names; the readers use "MissionDefinitions" |
| MissionManager.AsWrittenSaveIsNotReadBack | modules/mission/mission_manager.py:94 | the counterexample: one saved definition is invisible to the reader as written, and visible once written to "MissionDefinitions" |
| UiHelpers.DictOf | modules/mission/ui_helpers.py:13-20 | a dict literal or comprehension has a key for every entry |
| UiHelpers.DictOfFromEntries | modules/mission/ui_helpers.py:20 | every key of the built dict comes from an entry, with that entry's value |
| UiHelpers.DictOfDistinct | modules/mission/ui_helpers.py:13-20 | with distinct keys every entry is found as written |
| UiHelpers.InverseRoundTrip | modules/mission/ui_helpers.py:20 | with distinct keys and values, the swapped dict inverts the dict in both directions |
| UiHelpers.StatusMapContents | modules/mission/ui_helpers.py:13-18 | status_map is exactly Assigned→할 일, Pending→검사 대기, Approved→완료, Rejected→반려 |
| UiHelpers.StatusMapInvContents | modules/mission/ui_helpers.py:20 | status_map_inv is exactly the four labels mapped back |
| UiHelpers.StatusMapsSizes | modules/mission/ui_helpers.py:13-20 | both maps have four entries |
| UiHelpers.StatusMapsInverse | modules/mission/ui_helpers.py:20 | inv[map[k]] == k for every status and map[inv[v]] == v for every label |
| UiHelpers.ApprovalMapContents | modules/mission/ui_helpers.py:31-36 | the approval map is exactly 미요청, 요청, 완료, 반려, sharing 완료 and 반려 with status_map |
| AuthUtils.TargetName | modules/auth_utils.py:83 | target_child_name, else name, else "User" |
| AuthUtils.TargetChildId | modules/auth_utils.py:82-85 | a known display name maps to its id; any other name gives "son1" |
| AuthUtils.UserIdMapInvertsDisplayNames | modules/auth_utils.py:74-80 | get_user_id_map is the inverse of USER_DISPLAY_NAMES in both directions (USER_DISPLAY_NAMES is modules/constants.py lines 17-22) |
| AuthUtils.EmptySessionTargetsDefault | modules/auth_utils.py:83-85 | with neither key in the session the target is "son1" |
| AuthUtils.ChangePasswordResult | modules/auth_utils.py:104-116 | (True, the success message) iff the update returned True; the "user not found" message on False; the error message when it raised |
| AuthUtils.ChangePassword | modules/auth_utils.py:87-116 | succeeds iff the user exists and the write went through, and then the stored password is the new hash; the store is the attempted write of the edited Users table or unchanged; a failed write of a found user reports "user not found", a missing username column the error |
| RewardHandler.FinalRewardRows | modules/mission/reward_handler.py:30-34 | a stamp row iff stamp_qty > 0, a coupon row iff coupon_qty > 0, the stamp row first |
| RewardHandler.AppendAll | modules/db_manager.py:215-220 | appending several rows one log_activity at a time keeps the log's rows and adds these after them, in order |
| RewardHandler.AppendAllOne | modules/db_manager.py:206-220 | appending one row this way is one log_activity |
| RewardHandler.AppendAllTwo | modules/db_manager.py:206-220 | appending two rows this way is two log_activity calls in order |
| RewardHandler.WrittenTwice | modules/db_manager.py:126-164 | two writes of the same sheet leave only the second |
| RewardHandler.GrantFinalApprovalRewards | modules/mission/reward_handler.py:29-39 | returns True; the Logs sheet gets exactly the rows of FinalRewardRows, unchanged when neither quantity is positive |
| RewardHandler.GrantStamp | modules/mission/reward_handler.py:52-54 | returns True and appends exactly one "Mission" row with "도장: " + type, whatever the quantity |
| RewardHandler.GrantCoupon | modules/mission/reward_handler.py:70-72 | returns True and appends exactly one "Coupon" row with "쿠폰: " + type, whatever the quantity |
| RewardHandler.GrantedCouponParsesBack | modules/mission/reward_handler.py:71 | for a coupon type without surrounding whitespace, the coupon name parsed from its logged coupon row is that type |
| RewardHandler.StampIsNoCoupon | modules/mission/reward_handler.py:53 | for a stamp type without '쿠', its stamp row never parses as a coupon (a type such as "쿠폰: 게임" would) |
| Sheet.Put | modules/db_manager.py:254-257 | `df.at[i, c] = v` sets that cell and no other |
| Sheet.Filter | modules/db_manager.py:172 | `df[mask]`: kept rows are rows that pass, every passing row is kept, and none is invented |
| Sheet.FilterAppend | modules/db_manager.py:172 | a mask over two row blocks is the mask over each, in order |
| Sheet.FilterKeepsAll | modules/db_manager.py:172 | a mask every row passes keeps the table |
| Sheet.FilterKeepsNone | modules/db_manager.py:172 | a mask no row passes gives no rows |
| Sheet.FilterPartition | modules/db_manager.py:265 | a mask and its negation split the rows |
| Sheet.FilterSameVerdicts | clear_ghost_missions.py:36 | masks with the same verdicts row by row keep as many rows |
| Sheet.FilterExclusive | clear_ghost_missions.py:36-48 | two exclusive masks together keep at most all rows |
| Sheet.SelectBy | modules/db_manager.py:169-173 | with a truthy key, a non-empty table and the column present, the rows whose cell equals the key; otherwise the whole table |
| Sheet.SelectByAppend | modules/db_manager.py:172 | selecting from appended rows selects from each block in order |
| Sheet.AppendRow | modules/db_manager.py:215-218 | an empty table becomes the single row; otherwise the row is added at the end and the old rows are kept |
| Sheet.Concat | modules/mission/mission_manager.py:91 | `pd.concat` puts the first table's rows before the second's |
| Sheet.StringifyColumn | modules/db_manager.py:250 | `astype(str)` replaces each cell of the column by its string and changes nothing else |
| Sheet.FirstMatch | modules/db_manager.py:252-254 | `index[0]`: the first row that passes, None when none does |
| Sheet.FirstMatchFrom | modules/db_manager.py:252-254 | the first passing row at or after the start |
| Sheet.SetCells | modules/mission/mission_manager.py:40-41 | `.loc[i, c] = v` for several columns: the chosen row gets the cells, every other row and cell is unchanged |
| DbManager.Written | modules/db_manager.py:126-164 | a write replaces that one sheet when the remote accepts writes and leaves all other sheets; otherwise nothing changes |
| DbManager.DataManager.constructor | modules/db_manager.py:462 | the store starts with the given sheets and write status |
| DbManager.DataManager.UpdateData | modules/db_manager.py:126-164 | returns whether the remote accepts writes, and then the sheet reads back as written |
| DbManager.DataManager.GetMissions | modules/db_manager.py:169-173 | the Missions rows of the assignee, or all rows when the key is falsy, the sheet empty or the column missing |
| DbManager.DataManager.GetLogs | modules/db_manager.py:175-201 | the same selection on Logs by "User" |
| DbManager.DataManager.LogActivity | modules/db_manager.py:206-220 | one row {Timestamp, User, Type, Content, Reward} is appended at the end of Logs |
| DbManager.DataManager.UpdateLogs | modules/db_manager.py:222-223 | replaces the Logs sheet |
| DbManager.DataManager.AddCalendarEvent | modules/db_manager.py:229-243 | one event row with a fresh id is appended to Calendar |
| DbManager.DataManager.UpdateCalendarEvent | modules/db_manager.py:245-258 | only the first row whose id string matches gets the new date, title, member and type; nothing is written when none matches |
| DbManager.DataManager.DeleteCalendarEvent | modules/db_manager.py:260-266 | Calendar keeps exactly the rows whose id string differs |
| DbManager.DataManager.GetWeeklySchedule | modules/db_manager.py:269-277 | the same selection on WeeklySchedule by "assignee" |
| DbManager.DataManager.AddWeeklySchedule | modules/db_manager.py:279-304 | one schedule row is appended to the raw WeeklySchedule table |
| DbManager.DataManager.DeleteWeeklySchedule | modules/db_manager.py:306-311 | WeeklySchedule keeps exactly the rows whose id string differs |
| DbManager.DataManager.GetReadingLogs | modules/db_manager.py:314-318 | the same selection on Reading by "user_name" |
| DbManager.DataManager.AddReadingLog | modules/db_manager.py:320-336 | one reading row is appended to Reading |
| DbManager.DataManager.GetPraiseLogs | modules/db_manager.py:339-350 | the praise table with its missing columns filled in, then selected by "user_name" |
| DbManager.DataManager.AddPraiseRequest | modules/db_manager.py:352-366 | one praise row with status "대기 중" is appended to Praise |
| DbManager.DataManager.UpdatePraiseStatus | modules/db_manager.py:368-376 | only the status of the first row whose id string matches changes; nothing is written when none matches |
| DbManager.DataManager.GetMissionDefinitions | modules/db_manager.py:379-383 | the same selection on MissionDefinitions by "assignee" |
| DbManager.DataManager.UpdateMissionDefinitions | modules/db_manager.py:385-386 | replaces the MissionDefinitions sheet |
| DbManager.DataManager.AddMissionDefinition | modules/db_manager.py:388-404 | one definition row with active True is appended to MissionDefinitions |
| DbManager.DataManager.GetUserDict | modules/db_manager.py:406-429 | the user dictionary built from the Users rows in order |
| DbManager.DataManager.UpdateUserPassword | modules/db_manager.py:431-459 | raises without a username column, returns False without writing when the user is absent, and otherwise writes the edited table and returns the write's result |
| DbManager.EditById | modules/db_manager.py:245-258 | a result iff the table is non-empty, has the id column and some id string matches; then only the first match gets the cells and the other rows only have their id stringified; update_praise_status uses the same edit |
| DbManager.DeleteById | modules/db_manager.py:260-266 | a result iff the table is non-empty with the id column; then no kept row has the id; delete_weekly_schedule uses the same filter |
| DbManager.DeleteByIdCount | modules/db_manager.py:264-265 | the rows kept plus the rows matching the id are all the rows |
| DbManager.DeleteByIdKeepsOthers | modules/db_manager.py:264-265 | every row with a different id survives |
| DbManager.WithPraiseDefaults | modules/db_manager.py:343-346 | each missing praise column is added, filled with "대기 중" for status and "" otherwise; other cells are unchanged |
| DbManager.UsernameOf | modules/db_manager.py:418-420 | rows whose username is missing or falsy are skipped |
| DbManager.UserDictKeys | modules/db_manager.py:416-427 | the dictionary's keys are exactly the truthy usernames in the rows |
| DbManager.UserDictLastWins | modules/db_manager.py:422-427 | a later row with the same username overwrites an earlier one; name defaults to the username, role to "user", password and email to "" |
| DbManager.EditPassword | modules/db_manager.py:442-456 | the first row with the username gets the hash, and updated_at when that column exists; every other row and cell is unchanged |
| DbManager.LoggedRowEndsUserLog | modules/db_manager.py:200-218 | a logged row ends the user's log as get_logs reads it back |
| ClearGhostMissions.WithTextColumns | clear_ghost_missions.py:23-24 | adds date_str and assignee_str as the str() of date and assignee |
| ClearGhostMissions.IdsOf | clear_ghost_missions.py:43 | the mission ids of the given rows, in order |
| ClearGhostMissions.IdListed | clear_ghost_missions.py:43 | every marked row's id is in the list |
| ClearGhostMissions.MaskedRowDropped | clear_ghost_missions.py:43-48 | a marked row fails the `~isin(ids)` filter |
| ClearGhostMissions.SurvivorIdUnlisted | clear_ghost_missions.py:48-52 | no surviving row carries a listed id |
| ClearGhostMissions.DropTextColumns | clear_ghost_missions.py:51-52 | removes the two helper columns from the table and every row |
| ClearGhostMissions.MaskMeansMarked | clear_ghost_missions.py:23-36 | a row is masked iff str(assignee) contains "son1" and str(date) contains today (containment, not equality) |
| ClearGhostMissions.TextColumnsKeepId | clear_ghost_missions.py:23-24 | adding the helper columns keeps every mission id |
| ClearGhostMissions.TextColumnsDropped | clear_ghost_missions.py:23-52 | adding and then dropping the helper columns gives each row back |
| ClearGhostMissions.RemovesAtLeastTheGhosts | clear_ghost_missions.py:38-48 | removal is by id, so at least the marked count of rows is removed |
| ClearGhostMissions.SurvivorsAreNotGhosts | clear_ghost_missions.py:48-52 | the written table has no helper columns and no row sharing an id with a marked row |
| ClearGhostMissions.NonGhostIdsSurvive | clear_ghost_missions.py:48-52 | every row whose id is not listed survives, with its original fields |
| ClearGhostMissions.NothingWithoutGhosts | clear_ghost_missions.py:41-63 | with no marked row nothing is written |
| ClearGhostMissions.ContainmentExample | clear_ghost_missions.py:30-35 | "son10" on a dated-and-timed row is marked, since the test is containment |
| ClearGhostMissions.GhostCount | clear_ghost_missions.py:23-38 | the masked count over the text columns is the number of ghost rows among the stored missions |
| ClearGhostMissions.ClearGhostMissions | clear_ghost_missions.py:9-63 | Missions is replaced by the cleaned table exactly when the sheet is non-empty, the columns exist and some row is marked; otherwise nothing changes; the count is the number of ghost rows once the columns are read, else 0 |
| MigrateUsersPhase1.MigrationRow | migrate_users_phase1.py:46-54 | one row with exactly the seven user columns, the username, role "admin" iff dad or mom, and updated_at "" |
| MigrateUsersPhase1.MigrationRows | migrate_users_phase1.py:44-54 | one row per configured user, in configuration order |
| MigrateUsersPhase1.MigrationDefaults | migrate_users_phase1.py:47-53 | a user configured with nothing gets password "", name = username, email "", stamp_korea 0 |
| MigrateUsersPhase1.MigratedUserReadBack | migrate_users_phase1.py:44-60 | after migration each configured user reads back with the configured or default name, password and email, and the assigned role |
| MigrateUsersPhase1.Decide | migrate_users_phase1.py:25-41 | exit 1 without credentials; writes the configured users over an empty Users sheet; on a non-empty one exit 1 when username or name is missing (the KeyError), exit 0 unless the lower-cased answer is "yes", else write |
| MigrateUsersPhase1.Migrate | migrate_users_phase1.py:14-71 | an exit decision writes nothing; otherwise Users is replaced by the migration table and the exit code is 0 iff the write succeeded and at least one user is configured (an empty configuration raises KeyError after the write) |

## Left out

- Connection setup, the gspread fallback, `st.cache_data`, and `_retry_operation` with its sleep and jitter (modules/db_manager.py:10-164) are network I/O and timing. A write is modelled as "replace the whole sheet if the remote accepts writes". A failed read is not modelled.
- `get_settings` (modules/db_manager.py:203-204) is a plain read of the Settings sheet, which is `GetData`. It has no behaviour of its own.
- The Streamlit UI (modules/ui_components.py, modules/page_utils.py, the pages) is left out. So are the debug `st.write` calls inside `change_password`.
- The authentication widget, cookies and the bcrypt hashing (modules/auth_utils.py:8-72,96-100) are foreign libraries. The hash is a parameter of `AuthUtils.ChangePassword`.
- Reading the secrets file, `print`, `input` and the traceback in migrate_users_phase1.py are I/O. The parsed `credentials.usernames` table and the typed answer are parameters.
- modules/time_utils.py and `uuid.uuid4()` are replaced by parameters for the timestamp, today's date, the weekday index and fresh ids.
- modules/auth_methods.py is a stray fragment that repeats modules/db_manager.py:406-459. It is not modelled twice.
- modules/logic_processor.py, which the integration test calls, is not part of this model.
- NaN identity: pandas `==` never matches NaN and `isin` does; each is modelled as such. The float dtype of numeric columns and the bool/int cross-equality of pandas (`True == 1`) are not.
- MissionGenerator.Seen: the `title not in existing_titles` check of the generator is modelled as never finding a NaN title again, which is what Python's `in` does when each NaN is a distinct float object (a float-typed title column). In an object-typed column every NaN can be the one shared `np.nan` object, which `in` finds by identity; then a NaN title already present today, or a second due definition with a NaN title, would not make a new mission. That case is not modelled, because the model's cells carry no object identity.
- MissionManager.NoHistoryDeletion: the model finds no deleted ids because both id lists hold the same cells. With NaN ids in a float-typed `mission_id` column, `tolist()` and `to_dict('records')` (modules/mission/mission_manager.py:110-111) yield distinct NaN floats, so the set difference is non-empty, and `isin` (line 117) then drops every NaN-id row from Missions. That deletion is not modelled, because the model's cells carry no object identity.
- `str.contains` in clear_ghost_missions.py is a regex search. It is modelled as plain substring containment, which agrees for today's `%Y-%m-%d` string and "son1", since neither holds a regex metacharacter.
- Python's `\d` also matches non-ASCII digits. `CouponUtils.ExtractMinutes` accepts ASCII digits only.
- `str.lower()` in the migration's answer check is modelled for ASCII letters only (`AnswersYes`).
- Exceptions other than the column reads the code makes (for example a failing `to_dict`) are not modelled. Where the code catches them, the model returns False; where it lets them escape, the model writes nothing.

## Findings

| source | as written | input that shows it | evidently intended | confidence | as-written member | corrected member |
|---|---|---|---|---|---|---|
| modules/mission/mission_manager.py:94 | `save_definitions` writes the sheet "Mission_Definitions" | any successful save of a child's definitions: every reader uses "MissionDefinitions" (modules/db_manager.py:380,386,389), so the saved rows are never read back and the next generation uses the old definitions | write "MissionDefinitions", as `update_mission_definitions` does | not executed | MissionManager.SaveDefinitionsAsWritten, MissionManager.AsWrittenSaveIsNotReadBack | MissionManager.SaveDefinitions, MissionManager.SavedDefinitionsReadBack |
