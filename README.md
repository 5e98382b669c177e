# College bot core, modelled in Dafny

The bot serves a college over Telegram. Every user has a row in a SQLite
database with one of three roles: admin, teacher or student. An admin manages
the users, groups and roles, adds admins and sends broadcasts. A teacher enters
grades and lessons, views group schedules and writes to students. A student
reads their schedule and grades and writes to the teachers of their group. Each
multi-step flow is an aiogram finite-state conversation. The conversation keeps
a state name and a data dictionary per user, and the reserved "❌ Отмена"
label cancels it.

The model covers the parts of the bot where the behaviour lives:

- `store.dfy` (module `Store`): the database as the class `Database`. Its
  tables are `seq` fields that the write methods reassign, and its queries are
  functions.
- `tables.dfy` (module `Tables`): what each SQL statement does on those
  tables, as pure functions with their lemmas. This includes the `INSERT OR
  REPLACE` upsert, single-column `UPDATE`s, `AUTOINCREMENT` group ids under a
  `UNIQUE` name, the two ordered joins and `SELECT DISTINCT`.
- `helpers.dfy` (module `Helpers`): the weekday tables and the two text
  formatters. The formatters are modelled as the sequence of lines they
  produce.
- `keyboards.dfy` (module `Keyboards`): the menus and inline keyboards. Each
  keyboard is modelled as its labels and callback data, together with the
  round trip from callback data back to the id it carries.
- `conversation.dfy` (module `Conversation`): the conversation context as the
  class `FsmContext`, and the replies a handler can give.
- `teacher.dfy`, `admin.dfy` and `student.dfy`: one method per handler. Each
  method states the reply, the new conversation state and the new database
  state for every branch of the handler.
- `text.dfy` and `seqs.dfy`: the Python built-ins the handlers rely on.
  These are `str.strip`, `str.lower`, `int()` and `str()` on integers,
  `split("_")[-1]`, `startswith`, SQLite's text ordering, a stable sort, a
  filter and an order-keeping de-duplication.
- `findings.dfy`: two defects of the handlers, each shown on a concrete scenario, a fixed sequence of updates.

A handler's reply `NotHandled` means the update passes on to other handlers.
That happens when the update's state or callback prefix does not match the
handler's filter, or when the text is the cancel label. `Crash` stands for an
exception that nothing catches. Everything the handler did before the
exception is kept.

Points where the handlers behave differently from what their menus suggest;
the model follows the code:

- Starting a flow calls `set_state`, which keeps the data already collected
  rather than clearing it.
- A non-numeric grade clears the conversation, since the `ValueError` branch
  calls `clear`. An out-of-range grade keeps the state.
- A duplicate group name keeps the state rather than clearing it.
- The callback handlers that act on a chosen user check no role.
- The inline cancel button deletes the message and leaves the conversation
  state as it is.

## Model

| member | source | states |
|---|---|---|
| Text.Strip | bot_clge/handlers/teacher.py:62 | `str.strip()`: the result is no longer than the input and neither starts nor ends with whitespace |
| Text.StripClean | bot_clge/handlers/admin.py:80 | text with no whitespace at either end is left unchanged |
| Text.StripIdempotent | bot_clge/handlers/teacher.py:186 | stripping twice is the same as stripping once |
| Text.Lower | bot_clge/utils/helpers.py:14 | `str.lower()` on Latin and Cyrillic: same length, each character lowered |
| Text.LowerIdempotent | bot_clge/handlers/teacher.py:150 | lowering twice is the same as lowering once, so the handler's `lower()` before `get_day_number`'s own changes nothing |
| Text.LastSegment | bot_clge/handlers/admin.py:207 | `split("_")[-1]`: a suffix holding no separator, preceded by the separator unless it is the whole text |
| Text.LastSegmentAfter | bot_clge/handlers/teacher.py:52 | the text after the last separator is exactly the tail appended after a separator |
| Text.ParseInt | bot_clge/handlers/teacher.py:75 | `int()`: blank text is rejected; a run of digits, with underscores allowed between digits, gives its value |
| Text.NotANumber | bot_clge/handlers/teacher.py:168 | text that starts with neither a sign nor a digit is rejected |
| Text.IntToStringRoundTrip | bot_clge/keyboards/keyboards.py:74-81 | `int(str(n)) == n` for every integer, negative ones included |
| Text.StrLeTotal | bot_clge/database/db.py:192 | SQLite's BINARY text order is total |
| Text.StrLeTransitive | bot_clge/database/db.py:192 | SQLite's BINARY text order is transitive |
| Seqs.Dedup | bot_clge/handlers/student.py:73-77 | exactly the elements of the input, each once |
| Seqs.DedupFirstAppearance | bot_clge/utils/helpers.py:61-66 | the distinct elements are listed in order of their first appearance in the input |
| Seqs.Filter | bot_clge/database/db.py:139 | the kept elements are exactly the elements satisfying the predicate |
| Seqs.FilterMultiset | bot_clge/database/db.py:135-141 | a kept element occurs as often as in the input; every other element occurs zero times |
| Seqs.FindFirst | bot_clge/handlers/admin.py:169-173 | the first element satisfying the predicate, or none exactly when no element does |
| Seqs.Insert | bot_clge/database/db.py:169 | inserting adds exactly the one element |
| Seqs.InsertSorted | bot_clge/database/db.py:169 | inserting into a sorted sequence keeps it sorted |
| Seqs.InsertionSort | bot_clge/database/db.py:169 | sorting permutes the input |
| Seqs.InsertionSortSorted | bot_clge/database/db.py:192 | under a total preorder the result is sorted |
| Tables.FindUser | bot_clge/database/db.py:84-90 | `get_user`: a row with that id, or none exactly when no row has it |
| Tables.FindUserUnique | bot_clge/database/db.py:15 | under the primary key, every stored row is the one its id finds |
| Tables.Upsert | bot_clge/database/db.py:75-82 | `INSERT OR REPLACE`: the new row is stored, the old row with its id is gone, every other row stays, and key order is kept |
| Tables.FindAfterUpsert | bot_clge/database/db.py:75-82 | after `add_user` the id reads back the new row, and every other id reads back what it read before |
| Tables.Apply | bot_clge/database/db.py:92-102 | an `UPDATE` of one column changes that column and no other |
| Tables.SetColumn | bot_clge/database/db.py:92-102 | only the rows with that id change, each by that column; key order is kept |
| Tables.FindAfterSetColumn | bot_clge/database/db.py:219-223 | after an update by key, that id reads back its row with the column changed, no row is created, and every other id is unaffected |
| Tables.UsersWithRole | bot_clge/database/db.py:135-141 | `get_users_by_role`: exactly the rows with that role |
| Tables.UsersWithRoleCount | bot_clge/database/db.py:135-141 | each such row is returned as often as it is stored |
| Tables.UsersInGroup | bot_clge/database/db.py:143-149 | `get_users_by_group`: exactly the rows with that group id |
| Tables.FilterKeyOrdered | bot_clge/database/db.py:139 | a `WHERE` filter keeps the rowid scan order |
| Tables.InsertGroup | bot_clge/database/db.py:104-109 | a duplicate name raises and changes nothing; otherwise the row gets the id one past the largest ever issued, and that id is returned |
| Tables.DeleteGroupRow | bot_clge/database/db.py:225-229 | `delete_group`: exactly the other groups remain |
| Tables.DeleteGroupValid | bot_clge/database/db.py:26-29 | deleting keeps ids increasing, within the counter, and names unique |
| Tables.TeacherName | bot_clge/database/db.py:167 | the `LEFT JOIN` gives a name exactly when a user with the teacher's id exists |
| Tables.SlotLePreorder | bot_clge/database/db.py:169 | ordering by day and then lesson is a total preorder |
| Tables.DateDescPreorder | bot_clge/database/db.py:192 | ordering by date descending is a total preorder |
| Tables.ScheduleOfGroup | bot_clge/database/db.py:160-172 | `get_schedule_by_group`: exactly the group's lessons, each as often as stored, sorted by day and then lesson, each with its teacher's name |
| Tables.GradesOfStudent | bot_clge/database/db.py:183-195 | `get_grades_by_student`: exactly the student's grades, each as often as stored, newest first, each with its teacher's name |
| Tables.StudentsOfTeacher | bot_clge/database/db.py:197-208 | `get_students_by_teacher`: exactly the students whose group has a lesson with the teacher, each once, in key order |
| Tables.StudentsFollowSchedule | bot_clge/database/db.py:151-158 | once a lesson is added, every student of that group is among the teacher's students |
| Store.Database.constructor | bot_clge/database/db.py:9-73 | a new database holds empty tables and a zero group counter |
| Store.Database.AddUser | bot_clge/database/db.py:75-82 | the id reads back the new row, every other id is unaffected, and the other tables stay |
| Store.Database.UpdateUserRole | bot_clge/database/db.py:92-96 | the user, if present, gets the role; nobody else changes |
| Store.Database.UpdateUserGroup | bot_clge/database/db.py:98-102 | the user, if present, gets the group id; nobody else changes |
| Store.Database.DeleteUserFromGroup | bot_clge/database/db.py:219-223 | the user, if present, loses their group; nobody else changes |
| Store.Database.CreateGroup | bot_clge/database/db.py:104-109 | an error exactly when the name exists, and then nothing changes; otherwise the group is appended under the next id, which is returned |
| Store.Database.DeleteGroup | bot_clge/database/db.py:225-229 | exactly the other groups remain; nothing else changes |
| Store.Database.AddSchedule | bot_clge/database/db.py:151-158 | exactly one lesson row is appended |
| Store.Database.AddGrade | bot_clge/database/db.py:174-181 | exactly one grade row is appended |
| Store.Database.AddMessage | bot_clge/database/db.py:210-217 | exactly one message row is appended |
| Helpers.DayNumber | bot_clge/utils/helpers.py:4-14 | `get_day_number` returns a number from 0 to 6 |
| Helpers.DayName | bot_clge/utils/helpers.py:17-27 | `get_day_name` gives "Неизвестно" exactly for numbers outside 1..6 |
| Helpers.DayNamesLower | bot_clge/utils/helpers.py:4-27 | the six names written, lower-cased, are the six keys read |
| Helpers.DayNameNumberInverse | bot_clge/utils/helpers.py:4-27 | reading back a written day name gives its number, whether lower-cased first or not |
| Helpers.DayNumberNameInverse | bot_clge/utils/helpers.py:4-27 | an accepted text is, up to case, the name of the day it gives; every other text gives 0 |
| Helpers.FormatSchedule | bot_clge/utils/helpers.py:30-50 | the "no schedule" text exactly for an empty list; otherwise the lines defined item by item |
| Helpers.AppendItem | bot_clge/utils/helpers.py:38-48 | one loop pass adds the block break the day change calls for, then the lesson line |
| Helpers.ScheduleLinesPrefix | bot_clge/utils/helpers.py:38-48 | the lines for a prefix of the items begin the lines for all of them |
| Helpers.ScheduleLayout | bot_clge/utils/helpers.py:38-50 | where each lesson line sits: the first follows its day header; a lesson on the same day directly follows the previous one; a lesson on another day follows an empty line and that day's header; the last lesson ends the text |
| Helpers.FormatGrades | bot_clge/utils/helpers.py:53-76 | the "no grades" text exactly for an empty list; otherwise one block per distinct subject |
| Helpers.GroupBySubject | bot_clge/utils/helpers.py:61-66 | the dictionary's keys, in insertion order, are the distinct subjects in order of first appearance, and each maps to that subject's grades in order |
| Helpers.BlocksInKeyOrder | bot_clge/utils/helpers.py:68-74 | one block per key, in key order, holding that key's grades |
| Helpers.GradesAllListed | bot_clge/utils/helpers.py:61-74 | across all blocks as many grades are listed as there are entries |
| Helpers.BlocksOfShape | bot_clge/utils/helpers.py:53-76 | blocks exist exactly for the subjects present, each once and none empty; each lists exactly its subject's grades, and every grade is listed |
| Keyboards.MainMenu | bot_clge/keyboards/keyboards.py:5-26 | five labels for an admin, four for a teacher, three for a student and none otherwise; labels are distinct and never the cancel label |
| Keyboards.MenusDisjoint | bot_clge/keyboards/keyboards.py:5-26 | no label appears twice across the three menus, so a menu label selects one handler |
| Keyboards.CallbackData | bot_clge/keyboards/keyboards.py:36-60 | callback data starts with its prefix and an underscore |
| Keyboards.CallbackRoundTrip | bot_clge/handlers/teacher.py:49-52 | the id a button carries is the id its handler reads back, even for a prefix with underscores of its own |
| Keyboards.CancelMatchesNoPrefix | bot_clge/keyboards/keyboards.py:29-33 | the cancel button's data starts with no handler's prefix |
| Keyboards.GroupsKeyboard | bot_clge/keyboards/keyboards.py:36-46 | one button per group in order, with its name and its id, then cancel; each id reads back |
| Keyboards.GroupIdsReadBack | bot_clge/handlers/admin.py:267-270 | every group button is read back as its group's id |
| Keyboards.UsersKeyboard | bot_clge/keyboards/keyboards.py:49-60 | one button per user in order, with the full name and the id, then cancel; each id reads back |
| Keyboards.UserIdsReadBack | bot_clge/handlers/admin.py:204-207 | every user button is read back as its user's id |
| Keyboards.DaysKeyboard | bot_clge/keyboards/keyboards.py:63-71 | the six weekdays, each read back by `get_day_number` as its own number, then cancel, read as no day |
| Keyboards.DaysAccepted | bot_clge/handlers/teacher.py:146-161 | every weekday label is accepted as its day, and cancel is not |
| Keyboards.LessonNumbersKeyboard | bot_clge/keyboards/keyboards.py:74-81 | "1" to "8", each read by `int()` as its number, then cancel, which `int()` rejects |
| Keyboards.GradesKeyboard | bot_clge/keyboards/keyboards.py:84-92 | the labels are `str(2)` to `str(5)`, each read by `int()` as its grade, then cancel, which `int()` rejects |
| Keyboards.ActionKeyboard | bot_clge/keyboards/keyboards.py:95-106 | four buttons: add, remove, the one applicable role change (to student exactly for a teacher), cancel |
| Conversation.FsmContext.constructor | bot_clge/handlers/teacher.py:16-25 | a new conversation has no state and no data |
| Conversation.FsmContext.SetState | bot_clge/handlers/teacher.py:45 | the state changes and the data stays |
| Conversation.FsmContext.Clear | bot_clge/handlers/teacher.py:322 | no state and no data |
| TeacherHandlers.StartAddGrade | bot_clge/handlers/teacher.py:28-46 | non-teachers are refused; a teacher without students is told so; otherwise their students are offered and the state advances with the data kept |
| TeacherHandlers.SelectStudentForGrade | bot_clge/handlers/teacher.py:49-56 | only in its state; an unreadable id raises; otherwise the student is stored and the subject is asked for |
| TeacherHandlers.GetSubjectForGrade | bot_clge/handlers/teacher.py:59-68 | as written: the subject is stored, the handler then raises, and the state stays on the subject |
| TeacherHandlers.GetSubjectForGradeIntended | bot_clge/handlers/teacher.py:59-68 | as intended: the subject is stored and the grade is asked for |
| TeacherHandlers.AddGrade | bot_clge/handlers/teacher.py:71-110 | for every input branch, the reply, state and database: a non-number clears, an out-of-range grade keeps the state, missing data fails, and a valid grade appends exactly one row and clears |
| TeacherHandlers.StartAddSchedule | bot_clge/handlers/teacher.py:113-130 | non-teachers are refused; no groups is reported; otherwise the groups are offered and the state advances |
| TeacherHandlers.SelectGroupForSchedule | bot_clge/handlers/teacher.py:133-143 | only in its state; the group id is stored and the day is asked for |
| TeacherHandlers.GetDayForSchedule | bot_clge/handlers/teacher.py:146-161 | an unknown day keeps the state; a known one is stored as 1..6 and the lesson is asked for |
| TeacherHandlers.GetLessonNumberForSchedule | bot_clge/handlers/teacher.py:164-180 | a non-number or a number outside 1..8 keeps the state; otherwise it is stored |
| TeacherHandlers.AddScheduleItem | bot_clge/handlers/teacher.py:183-207 | with all data present, exactly one lesson row is appended, taught by the sender, and the state is cleared; a missing key raises |
| TeacherHandlers.ViewScheduleTeacher | bot_clge/handlers/teacher.py:210-226 | non-teachers are refused; otherwise every group is offered |
| TeacherHandlers.ShowScheduleForGroup | bot_clge/handlers/teacher.py:229-244 | the group's schedule lines under its name, or "Группа" for an unknown group; an empty schedule is reported |
| TeacherHandlers.StartSendMessageToStudent | bot_clge/handlers/teacher.py:247-264 | non-teachers are refused; otherwise the teacher's students are offered |
| TeacherHandlers.SelectStudentForMessage | bot_clge/handlers/teacher.py:267-277 | only in its state; the student is stored and the text is asked for |
| TeacherHandlers.SendMessageToStudent | bot_clge/handlers/teacher.py:280-310 | exactly one message row is appended whether or not delivery succeeds, and the state is cleared |
| TeacherHandlers.CancelTeacherAction | bot_clge/handlers/teacher.py:313-322 | the cancel label clears everything and shows the sender's menu |
| AdminHandlers.UsersOfRoles | bot_clge/handlers/admin.py:121-124 | the collected users are exactly those whose role is listed |
| AdminHandlers.UsersOfRolesOnce | bot_clge/handlers/admin.py:164-167 | with distinct roles, every collected user occurs exactly once |
| AdminHandlers.BroadcastOncePerUser | bot_clge/handlers/admin.py:121-124 | the broadcast reaches every admin, teacher and student exactly once, and nobody else |
| AdminHandlers.CollectUsers | bot_clge/handlers/admin.py:121-124 | the loop over roles collects the users of those roles |
| AdminHandlers.CountDeliveries | bot_clge/handlers/admin.py:126-134 | `sent` counts the reachable recipients, and `sent + failed` is the number of recipients |
| AdminHandlers.FindByUsername | bot_clge/handlers/admin.py:169-173 | the search loop finds the first user with that username |
| AdminHandlers.ManageTeachers | bot_clge/handlers/admin.py:24-40 | non-admins are refused; otherwise every teacher is offered |
| AdminHandlers.ManageStudents | bot_clge/handlers/admin.py:43-59 | non-admins are refused; otherwise every student is offered |
| AdminHandlers.ManageGroups | bot_clge/handlers/admin.py:62-74 | as written: the handler always raises |
| AdminHandlers.ManageGroupsIntended | bot_clge/handlers/admin.py:62-74 | as intended: non-admins are refused; otherwise the group name is asked for |
| AdminHandlers.CreateGroup | bot_clge/handlers/admin.py:77-97 | an existing name is refused with the state kept; otherwise the group is created under the next id and the state cleared |
| AdminHandlers.StartBroadcast | bot_clge/handlers/admin.py:100-112 | non-admins are refused; otherwise the text is asked for |
| AdminHandlers.SendBroadcast | bot_clge/handlers/admin.py:115-140 | the counts of sent and failed deliveries over all users of the three roles, then the state is cleared |
| AdminHandlers.AddAdminStart | bot_clge/handlers/admin.py:143-155 | non-admins are refused; otherwise the username is asked for |
| AdminHandlers.AddAdminProcess | bot_clge/handlers/admin.py:158-201 | the first user with the typed username, without '@', is found; an unknown name keeps the state; an admin is only reported; anyone else becomes an admin and nobody else changes |
| AdminHandlers.TeacherAction | bot_clge/handlers/admin.py:204-214 | the chosen user is remembered and offered the change to student, not to teacher |
| AdminHandlers.StudentAction | bot_clge/handlers/admin.py:217-227 | the chosen user is remembered and offered the change to teacher, not to student |
| AdminHandlers.AddToGroupStart | bot_clge/handlers/admin.py:230-242 | every group is offered, or the absence of groups is reported |
| AdminHandlers.RemoveFromGroup | bot_clge/handlers/admin.py:245-264 | the remembered user loses their group and nobody else changes; without one the handler refuses |
| AdminHandlers.AddToGroupProcess | bot_clge/handlers/admin.py:267-289 | the remembered user gets the chosen group and nobody else changes |
| AdminHandlers.SetRole | bot_clge/handlers/admin.py:292-351 | the remembered user gets the role and nobody else changes; without one the handler refuses |
| AdminHandlers.SetTeacherRole | bot_clge/handlers/admin.py:292-320 | the remembered user becomes a teacher, the state is cleared, and no other user and no other table changes; without a remembered user nothing changes |
| AdminHandlers.SetStudentRole | bot_clge/handlers/admin.py:323-351 | the remembered user becomes a student, the state is cleared, and no other user and no other table changes; without a remembered user nothing changes |
| AdminHandlers.CancelAction | bot_clge/handlers/admin.py:354-358 | the message is deleted exactly for the cancel callback |
| AdminHandlers.CancelText | bot_clge/handlers/admin.py:361-370 | the cancel label clears everything and shows the sender's menu |
| StudentHandlers.TeacherIds | bot_clge/handlers/student.py:74-75 | the teacher id of each schedule item, in order |
| StudentHandlers.FoundUsers | bot_clge/handlers/student.py:80-84 | only existing users with one of the ids are kept |
| StudentHandlers.FoundUsersExact | bot_clge/handlers/student.py:80-84 | exactly the existing users with those ids, each id at most once |
| StudentHandlers.TeacherInSchedule | bot_clge/handlers/student.py:66-77 | an id is in the group's schedule exactly when that user teaches the group |
| StudentHandlers.OfferedTeachersExact | bot_clge/handlers/student.py:53-94 | the offer lists exactly the users teaching the group, each once |
| StudentHandlers.WriteToTeacherSymmetric | bot_clge/handlers/student.py:53-94 | a teacher is offered to a student exactly when that student is among the teacher's students |
| StudentHandlers.DistinctTeacherIds | bot_clge/handlers/student.py:73-77 | the dictionary loop keeps the distinct teacher ids in order of first appearance |
| StudentHandlers.ExistingUsers | bot_clge/handlers/student.py:80-84 | the users loop keeps the ids that have a row |
| StudentHandlers.ViewScheduleStudent | bot_clge/handlers/student.py:18-37 | non-students are refused, a student without a group is told so, and otherwise their group's schedule lines are shown |
| StudentHandlers.ViewGradesStudent | bot_clge/handlers/student.py:40-50 | non-students are refused; otherwise their grade blocks are shown |
| StudentHandlers.StartWriteToTeacher | bot_clge/handlers/student.py:53-94 | the group's teachers are offered, or the absence of any is reported, and the state advances only when some are offered |
| StudentHandlers.SelectTeacherForMessage | bot_clge/handlers/student.py:97-107 | only in its state; the teacher is stored and the text is asked for |
| StudentHandlers.SendMessageToTeacher | bot_clge/handlers/student.py:110-140 | exactly one message row is appended whether or not delivery succeeds, and the state is cleared |
| StudentHandlers.CancelStudentAction | bot_clge/handlers/student.py:143-152 | the cancel label clears everything and shows the sender's menu |
| Findings.GroupCreationAsWritten | bot_clge/handlers/admin.py:62-74 | as written, an admin who opens group management and types a name creates no group |
| Findings.GroupCreationIntended | bot_clge/handlers/admin.py:62-97 | as intended, the same scenario creates group 1 with that name |
| Findings.GradeFlowAsWritten | bot_clge/handlers/teacher.py:59-68 | as written, a teacher who picks a student, types a subject and taps a grade stores nothing |
| Findings.GradeFlowIntended | bot_clge/handlers/teacher.py:59-110 | as intended, the same scenario stores exactly that grade |

## Left out

- Transport: sending, editing and answering messages, and the keyboard
  markup layout are not modelled. Replies are modelled as the `Reply` values
  above. Whether a notification reaches its recipient is a parameter
  (`delivered`, `reachable`).
- Notifications whose failures the handlers catch and ignore, such as
  role-change and new-admin notices, are not modelled. They change no state.
- Router precedence is not modelled. The routers are included in the order
  common, admin, teacher, student. The text filter `F.text == "❌ Отмена"` of
  admin's `cancel_text` therefore answers before the teacher's and student's
  cancel handlers. The model states each cancel handler on its own.
- Menu handlers are modelled as invoked on their own label. Matching the
  label is the router's job.
- Non-text messages are not modelled. A photo, for example, reaches the text
  handlers with `message.text` set to `None`.
- `bot_clge/handlers/common.py` (`/start` and registration) is not part of
  this model. `main.py` and `config.py` are not part of it either.
- Text.ParseInt: digits other than ASCII ones are not modelled. `int()`
  also accepts other Unicode decimal digits.
- Text.Lower: only the Latin and basic Cyrillic ranges are lowered, not
  Python's full Unicode case mapping.
- Integer widths are not modelled. SQLite's 64-bit ids and Python's unbounded
  integers are both modelled as `int`.
- SQL row order is not modelled where the SQL leaves it unspecified. Rows
  that tie under `ORDER BY` are taken in insertion order. `SELECT DISTINCT`
  rows are taken in user-key order.
- Helpers.FormatGrades: the average per subject (`{avg:.2f}`) and the
  characters of each line are not modelled. A block holds its subject and
  grades, from which the average follows.
- Helpers.FormatSchedule: a lesson line carries the teacher's name as the
  join gives it. A missing teacher prints as `None`, not "Неизвестно",
  because the key is present. The characters of the line are not modelled.
- Exceptions a database call could raise inside a handler's `try`, other than
  the duplicate group name, are not modelled.
- Keyboards.UsersKeyboard: the `@username` fallback for a missing full name
  is not modelled. The row always holds the `full_name` key, so the fallback
  is never taken.
- The `messages` and `schedule` ids and the schedule `FOREIGN KEY`s are not
  modelled. No handler reads them.

## Findings

| source | as written | input that shows it | evidently intended | confidence | as-written member | corrected member |
|---|---|---|---|---|---|---|
| bot_clge/handlers/admin.py:62-74 | `manage_groups` reads `db`, but unlike every other handler it takes no `db` parameter, and the module defines no global of that name. Its first line therefore raises `NameError` before the group-name state is set, so `create_group` is unreachable | an admin taps the group-management label, then types "IS-21" | ask for the name, set `waiting_for_group_name`, and create the group from the typed name | high; not executed | Findings.GroupCreationAsWritten (AdminHandlers.ManageGroups) | Findings.GroupCreationIntended (AdminHandlers.ManageGroupsIntended) |
| bot_clge/handlers/teacher.py:6-9, 59-68 | `get_subject_for_grade` calls `get_grades_keyboard`, which the module's import list leaves out. It raises `NameError` after storing the subject and before advancing to `waiting_for_grade`, so `add_grade` is unreachable | a teacher picks student 2, types "Math", then taps "5" | advance to `waiting_for_grade` and store grade 5 for student 2 in Math | high; not executed | Findings.GradeFlowAsWritten (TeacherHandlers.GetSubjectForGrade) | Findings.GradeFlowIntended (TeacherHandlers.GetSubjectForGradeIntended) |
