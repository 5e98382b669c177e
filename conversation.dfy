/** What the three handler files share: the per-user conversation state aiogram keeps
    (a state name from one of the three `StatesGroup` classes and a data dictionary), the
    outcomes a handler replies with, and the role and group gates. */
module Conversation {
  import opened Wrappers
  import opened Tables
  import opened Helpers
  import opened Keyboards

  /** `TeacherStates` (bot_clge/handlers/teacher.py). */
  datatype TeacherState =
    | WaitingForStudent | WaitingForSubject | WaitingForGrade
    | WaitingForGroupSchedule | WaitingForDay | WaitingForLessonNumber | WaitingForSubjectName
    | WaitingForStudentMessage | WaitingForMessageText

  /** `AdminStates` (bot_clge/handlers/admin.py); only two of them are ever set. */
  datatype AdminState =
    | WaitingForUserId | WaitingForGroupName | WaitingForTeacherUsername
    | WaitingForStudentUsername | WaitingForBroadcastMessage | WaitingForNewAdminUsername
    | SelectingGroupForUser

  /** `StudentStates` (bot_clge/handlers/student.py). */
  datatype StudentState = WaitingForTeacher | WaitingForTeacherMessage

  datatype State = Teacher(t: TeacherState) | Admin(a: AdminState) | Student(s: StudentState)

  /** The keys the handlers put in the FSM data dictionary; `None` is a key never set
      since the last `clear`. */
  datatype FsmData = FsmData(
    studentId: Option<int>,
    subject: Option<string>,
    groupId: Option<int>,
    dayOfWeek: Option<int>,
    lessonNumber: Option<int>,
    teacherId: Option<int>,
    targetUserId: Option<int>)

  const NoData := FsmData(None, None, None, None, None, None, None)

  /** aiogram's `FSMContext` for one user in one chat. */
  class FsmContext {
    var state: Option<State>
    var data: FsmData

    constructor ()
      ensures state == None && data == NoData
    {
      state, data := None, NoData;
    }

    /** `set_state`: the state name changes, the data stays. */
    method SetState(s: State)
      modifies this
      ensures state == Some(s) && data == old(data)
    {
      state := Some(s);
    }

    /** `clear`: no state and no data. */
    method Clear()
      modifies this
      ensures state == None && data == NoData
    {
      state, data := None, NoData;
    }
  }

  /** What a handler answers with. `NotHandled` stands for an update the handler's own
      state or text filter lets pass to other handlers; `Crash` for an exception nothing
      catches, which ends the handler with whatever it already changed. */
  datatype Reply =
    | NotHandled
    | NoAccess
    | NotInGroup
    | NothingToList
    | Choose(buttons: seq<Button>)
    | Prompt
    | Invalid
    | Done
    | Failed
    | AlreadyExists
    | AlreadyAdmin
    | UserNotFound
    | NoTargetUser
    | Crash
    | Menu(labels: seq<string>)
    | GroupSchedule(groupName: string, schedule: ScheduleText)
    | OwnSchedule(ownSchedule: ScheduleText)
    | OwnGrades(grades: GradesText)
    | BroadcastDone(sent: nat, failed: nat)
    | MessageDeleted

  /** `user and user['role'] == role`: a row exists and has that role. */
  predicate HasRole(u: Option<User>, role: string) {
    u.Some? && u.value.role == role
  }

  /** `user.get('group_id')` is truthy: neither NULL nor 0. */
  predicate InGroup(u: User) {
    u.groupId.Some? && u.groupId.value != 0
  }

  /** `data.get('target_user_id')` when truthy: a missing key and 0 both count as no user. */
  function TargetUser(d: FsmData): Option<int> {
    if d.targetUserId.Some? && d.targetUserId.value != 0 then d.targetUserId else None
  }
}
