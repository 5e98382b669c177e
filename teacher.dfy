/** bot_clge/handlers/teacher.py: the teacher's three flows (grade a student, add a
    schedule row, message a student), viewing a group's schedule, and cancel. Each handler
    is one method on the store and the sender's conversation state; `sender` is
    `message.from_user.id`. Replies are outcomes, not texts. */
module TeacherHandlers {
  import opened Wrappers
  import opened Text
  import opened Tables
  import opened Store
  import opened Helpers
  import opened Keyboards
  import opened Conversation

  // ------------------------------------------------------------ grade a student

  /** `start_add_grade`: only a teacher with at least one student gets the list of
      students and enters `waiting_for_student`. */
  method StartAddGrade(db: Database, ctx: FsmContext, sender: int) returns (r: Reply)
    modifies ctx
    ensures !HasRole(db.GetUser(sender), "teacher") ==> r == NoAccess && unchanged(ctx)
    ensures HasRole(db.GetUser(sender), "teacher") && db.GetStudentsByTeacher(sender) == [] ==>
              r == NothingToList && unchanged(ctx)
    ensures HasRole(db.GetUser(sender), "teacher") && db.GetStudentsByTeacher(sender) != [] ==>
              && r.Choose? && OffersUsers(r.buttons, db.GetStudentsByTeacher(sender), "grade_student")
              && ctx.state == Some(Teacher(WaitingForStudent)) && ctx.data == old(ctx.data)
  {
    var user := db.GetUser(sender);
    if user.None? || user.value.role != "teacher" {
      return NoAccess;
    }
    var students := db.GetStudentsByTeacher(sender);
    if |students| == 0 {
      return NothingToList;
    }
    var kb := UsersKeyboard(students, "grade_student");
    ctx.SetState(Teacher(WaitingForStudent));
    r := Choose(kb);
  }

  /** `select_student_for_grade`: in `waiting_for_student`, a "grade_student_<id>" callback
      stores the student and asks for the subject. */
  method SelectStudentForGrade(ctx: FsmContext, data: string) returns (r: Reply)
    modifies ctx
    ensures !(StartsWith(data, "grade_student_") && old(ctx.state) == Some(Teacher(WaitingForStudent))) ==>
              r == NotHandled && unchanged(ctx)
    ensures StartsWith(data, "grade_student_") && old(ctx.state) == Some(Teacher(WaitingForStudent)) ==>
              if CallbackId(data).None? then r == Crash && unchanged(ctx)
              else && r == Prompt && ctx.state == Some(Teacher(WaitingForSubject))
                   && ctx.data == old(ctx.data).(studentId := CallbackId(data))
  {
    if !StartsWith(data, "grade_student_") || ctx.state != Some(Teacher(WaitingForStudent)) {
      return NotHandled;
    }
    var id := CallbackId(data);
    if id.None? {
      return Crash;
    }
    ctx.data := ctx.data.(studentId := id);
    ctx.SetState(Teacher(WaitingForSubject));
    r := Prompt;
  }

  /** `get_subject_for_grade` as written: the stripped subject is stored, then building the
      grades keyboard raises `NameError` (`get_grades_keyboard` is not imported), so the
      state stays `waiting_for_subject` and the grade step is never reached. */
  method GetSubjectForGrade(ctx: FsmContext, text: string) returns (r: Reply)
    modifies ctx
    ensures !(old(ctx.state) == Some(Teacher(WaitingForSubject)) && text != CancelLabel) ==>
              r == NotHandled && unchanged(ctx)
    ensures old(ctx.state) == Some(Teacher(WaitingForSubject)) && text != CancelLabel ==>
              && r == Crash && ctx.state == Some(Teacher(WaitingForSubject))
              && ctx.data == old(ctx.data).(subject := Some(Strip(text)))
  {
    if ctx.state != Some(Teacher(WaitingForSubject)) || text == CancelLabel {
      return NotHandled;
    }
    ctx.data := ctx.data.(subject := Some(Strip(text)));
    r := Crash;
  }

  /** `get_subject_for_grade` as evidently intended: the subject is stored, the grades
      keyboard is shown and the flow moves to `waiting_for_grade`. */
  method GetSubjectForGradeIntended(ctx: FsmContext, text: string) returns (r: Reply)
    modifies ctx
    ensures !(old(ctx.state) == Some(Teacher(WaitingForSubject)) && text != CancelLabel) ==>
              r == NotHandled && unchanged(ctx)
    ensures old(ctx.state) == Some(Teacher(WaitingForSubject)) && text != CancelLabel ==>
              && r == Prompt && ctx.state == Some(Teacher(WaitingForGrade))
              && ctx.data == old(ctx.data).(subject := Some(Strip(text)))
  {
    if ctx.state != Some(Teacher(WaitingForSubject)) || text == CancelLabel {
      return NotHandled;
    }
    ctx.data := ctx.data.(subject := Some(Strip(text)));
    var labels := GradesKeyboard();
    ctx.SetState(Teacher(WaitingForGrade));
    r := Prompt;
  }

  /** `add_grade`: text that is no integer clears the state; an integer outside 2..5 keeps
      it; a valid grade with student and subject in the data appends one grade row (the
      sender as teacher, `date` standing for the clock) and clears the state; a missing key
      is caught and also clears. The student's notification may fail unnoticed. */
  method AddGrade(db: Database, ctx: FsmContext, sender: int, text: string, date: string)
    returns (r: Reply)
    requires db.Valid()
    modifies db, ctx
    ensures db.Valid()
    ensures !(old(ctx.state) == Some(Teacher(WaitingForGrade)) && text != CancelLabel) ==>
              r == NotHandled && unchanged(db) && unchanged(ctx)
    ensures old(ctx.state) == Some(Teacher(WaitingForGrade)) && text != CancelLabel ==>
              match ParseInt(Strip(text))
              case None => r == Invalid && unchanged(db) && ctx.state == None && ctx.data == NoData
              case Some(g) =>
                if !(2 <= g <= 5) then r == Invalid && unchanged(db) && unchanged(ctx)
                else if old(ctx.data).studentId.None? || old(ctx.data).subject.None? then
                  r == Failed && unchanged(db) && ctx.state == None && ctx.data == NoData
                else
                  && r == Done && ctx.state == None && ctx.data == NoData
                  && db.Snap() == old(db.Snap()).(grades := old(db.grades) +
                       [GradeRow(old(ctx.data).studentId.value, sender, old(ctx.data).subject.value, g, date)])
  {
    if ctx.state != Some(Teacher(WaitingForGrade)) || text == CancelLabel {
      return NotHandled;
    }
    var grade := ParseInt(Strip(text));
    if grade.None? {
      r := Invalid;
    } else if !(2 <= grade.value <= 5) {
      return Invalid;
    } else if ctx.data.studentId.None? || ctx.data.subject.None? {
      r := Failed;
    } else {
      db.AddGrade(ctx.data.studentId.value, sender, ctx.data.subject.value, grade.value, date);
      r := Done;
    }
    ctx.Clear();
  }

  // ------------------------------------------------------------ add a schedule row

  /** `start_add_schedule`: a teacher picks one of all groups; with no group the flow does
      not start. */
  method StartAddSchedule(db: Database, ctx: FsmContext, sender: int) returns (r: Reply)
    modifies ctx
    ensures !HasRole(db.GetUser(sender), "teacher") ==> r == NoAccess && unchanged(ctx)
    ensures HasRole(db.GetUser(sender), "teacher") && db.GetAllGroups() == [] ==>
              r == NothingToList && unchanged(ctx)
    ensures HasRole(db.GetUser(sender), "teacher") && db.GetAllGroups() != [] ==>
              && r.Choose? && OffersGroups(r.buttons, db.GetAllGroups(), "schedule_group")
              && ctx.state == Some(Teacher(WaitingForGroupSchedule)) && ctx.data == old(ctx.data)
  {
    var user := db.GetUser(sender);
    if user.None? || user.value.role != "teacher" {
      return NoAccess;
    }
    var groups := db.GetAllGroups();
    if |groups| == 0 {
      return NothingToList;
    }
    var kb := GroupsKeyboard(groups, "schedule_group");
    ctx.SetState(Teacher(WaitingForGroupSchedule));
    r := Choose(kb);
  }

  /** `select_group_for_schedule`: stores the group and asks for the day. */
  method SelectGroupForSchedule(ctx: FsmContext, data: string) returns (r: Reply)
    modifies ctx
    ensures !(StartsWith(data, "schedule_group_") && old(ctx.state) == Some(Teacher(WaitingForGroupSchedule))) ==>
              r == NotHandled && unchanged(ctx)
    ensures StartsWith(data, "schedule_group_") && old(ctx.state) == Some(Teacher(WaitingForGroupSchedule)) ==>
              if CallbackId(data).None? then r == Crash && unchanged(ctx)
              else && r == Prompt && ctx.state == Some(Teacher(WaitingForDay))
                   && ctx.data == old(ctx.data).(groupId := CallbackId(data))
  {
    if !StartsWith(data, "schedule_group_") || ctx.state != Some(Teacher(WaitingForGroupSchedule)) {
      return NotHandled;
    }
    var id := CallbackId(data);
    if id.None? {
      return Crash;
    }
    ctx.data := ctx.data.(groupId := id);
    ctx.SetState(Teacher(WaitingForDay));
    r := Prompt;
  }

  /** `get_day_for_schedule`: a weekday name (any case, surrounding blanks ignored) stores
      its number, 1..6, and asks for the lesson; anything else is refused and the state
      kept. */
  method GetDayForSchedule(ctx: FsmContext, text: string) returns (r: Reply)
    modifies ctx
    ensures !(old(ctx.state) == Some(Teacher(WaitingForDay)) && text != CancelLabel) ==>
              r == NotHandled && unchanged(ctx)
    ensures old(ctx.state) == Some(Teacher(WaitingForDay)) && text != CancelLabel ==>
              if DayNumber(Lower(Strip(text))) == 0 then r == Invalid && unchanged(ctx)
              else && r == Prompt && ctx.state == Some(Teacher(WaitingForLessonNumber))
                   && ctx.data == old(ctx.data).(dayOfWeek := Some(DayNumber(Strip(text))))
                   && 1 <= ctx.data.dayOfWeek.value <= 6
  {
    if ctx.state != Some(Teacher(WaitingForDay)) || text == CancelLabel {
      return NotHandled;
    }
    var day := DayNumber(Lower(Strip(text)));
    LowerIdempotent(Strip(text));
    if day == 0 {
      return Invalid;
    }
    ctx.data := ctx.data.(dayOfWeek := Some(day));
    ctx.SetState(Teacher(WaitingForLessonNumber));
    r := Prompt;
  }

  /** `get_lesson_number_for_schedule`: a lesson number 1..8 is stored and the subject
      asked for; text that is no integer, or an integer out of range, is refused and the
      state kept. */
  method GetLessonNumberForSchedule(ctx: FsmContext, text: string) returns (r: Reply)
    modifies ctx
    ensures !(old(ctx.state) == Some(Teacher(WaitingForLessonNumber)) && text != CancelLabel) ==>
              r == NotHandled && unchanged(ctx)
    ensures old(ctx.state) == Some(Teacher(WaitingForLessonNumber)) && text != CancelLabel ==>
              match ParseInt(Strip(text))
              case None => r == Invalid && unchanged(ctx)
              case Some(n) =>
                if n < 1 || n > 8 then r == Invalid && unchanged(ctx)
                else && r == Prompt && ctx.state == Some(Teacher(WaitingForSubjectName))
                     && ctx.data == old(ctx.data).(lessonNumber := Some(n))
  {
    if ctx.state != Some(Teacher(WaitingForLessonNumber)) || text == CancelLabel {
      return NotHandled;
    }
    var n := ParseInt(Strip(text));
    if n.None? || n.value < 1 || n.value > 8 {
      return Invalid;
    }
    ctx.data := ctx.data.(lessonNumber := n);
    ctx.SetState(Teacher(WaitingForSubjectName));
    r := Prompt;
  }

  /** `add_schedule_item`: reading a missing key raises before the `try`, so the state is
      kept; otherwise one schedule row is appended with the stored group, day and lesson,
      the stripped subject and the sender, and the state is cleared. */
  method AddScheduleItem(db: Database, ctx: FsmContext, sender: int, text: string) returns (r: Reply)
    requires db.Valid()
    modifies db, ctx
    ensures db.Valid()
    ensures !(old(ctx.state) == Some(Teacher(WaitingForSubjectName)) && text != CancelLabel) ==>
              r == NotHandled && unchanged(db) && unchanged(ctx)
    ensures old(ctx.state) == Some(Teacher(WaitingForSubjectName)) && text != CancelLabel ==>
              var d := old(ctx.data);
              if d.groupId.None? || d.dayOfWeek.None? || d.lessonNumber.None? then
                r == Crash && unchanged(db) && unchanged(ctx)
              else
                && r == Done && ctx.state == None && ctx.data == NoData
                && db.Snap() == old(db.Snap()).(schedule := old(db.schedule) +
                     [ScheduleRow(d.groupId.value, d.dayOfWeek.value, d.lessonNumber.value, Strip(text), sender)])
  {
    if ctx.state != Some(Teacher(WaitingForSubjectName)) || text == CancelLabel {
      return NotHandled;
    }
    var subject := Strip(text);
    var d := ctx.data;
    if d.groupId.None? || d.dayOfWeek.None? || d.lessonNumber.None? {
      return Crash;
    }
    db.AddSchedule(d.groupId.value, d.dayOfWeek.value, d.lessonNumber.value, subject, sender);
    r := Done;
    ctx.Clear();
  }

  // ------------------------------------------------------------ view a group's schedule

  /** `view_schedule_teacher`: a teacher is offered every group; nothing changes. */
  method ViewScheduleTeacher(db: Database, sender: int) returns (r: Reply)
    ensures !HasRole(db.GetUser(sender), "teacher") ==> r == NoAccess
    ensures HasRole(db.GetUser(sender), "teacher") && db.GetAllGroups() == [] ==> r == NothingToList
    ensures HasRole(db.GetUser(sender), "teacher") && db.GetAllGroups() != [] ==>
              r.Choose? && OffersGroups(r.buttons, db.GetAllGroups(), "view_schedule_group")
  {
    var user := db.GetUser(sender);
    if user.None? || user.value.role != "teacher" {
      return NoAccess;
    }
    var groups := db.GetAllGroups();
    if |groups| == 0 {
      return NothingToList;
    }
    var kb := GroupsKeyboard(groups, "view_schedule_group");
    r := Choose(kb);
  }

  /** `show_schedule_for_group`: with no state or role check, the group's schedule
      formatted under its name ("Группа" when the group row is gone). */
  method ShowScheduleForGroup(db: Database, data: string) returns (r: Reply)
    ensures !StartsWith(data, "view_schedule_group_") ==> r == NotHandled
    ensures StartsWith(data, "view_schedule_group_") && CallbackId(data).None? ==> r == Crash
    ensures StartsWith(data, "view_schedule_group_") && CallbackId(data).Some? ==>
              var g := CallbackId(data).value;
              var items := db.GetScheduleByGroup(g);
              if items == [] then r == NothingToList
              else && r.GroupSchedule?
                   && r.schedule == ScheduleLines(ScheduleLinesOf(items))
                   && r.groupName == (if db.GetGroupById(g).Some? then db.GetGroupById(g).value.name else "Группа")
  {
    if !StartsWith(data, "view_schedule_group_") {
      return NotHandled;
    }
    var id := CallbackId(data);
    if id.None? {
      return Crash;
    }
    var items := db.GetScheduleByGroup(id.value);
    if |items| == 0 {
      return NothingToList;
    }
    var group := db.GetGroupById(id.value);
    var name := if group.Some? then group.value.name else "Группа";
    var text := FormatSchedule(items);
    r := GroupSchedule(name, text);
  }

  // ------------------------------------------------------------ message a student

  /** `start_send_message_to_student`: like the grade flow, only with a student to pick. */
  method StartSendMessageToStudent(db: Database, ctx: FsmContext, sender: int) returns (r: Reply)
    modifies ctx
    ensures !HasRole(db.GetUser(sender), "teacher") ==> r == NoAccess && unchanged(ctx)
    ensures HasRole(db.GetUser(sender), "teacher") && db.GetStudentsByTeacher(sender) == [] ==>
              r == NothingToList && unchanged(ctx)
    ensures HasRole(db.GetUser(sender), "teacher") && db.GetStudentsByTeacher(sender) != [] ==>
              && r.Choose? && OffersUsers(r.buttons, db.GetStudentsByTeacher(sender), "message_student")
              && ctx.state == Some(Teacher(WaitingForStudentMessage)) && ctx.data == old(ctx.data)
  {
    var user := db.GetUser(sender);
    if user.None? || user.value.role != "teacher" {
      return NoAccess;
    }
    var students := db.GetStudentsByTeacher(sender);
    if |students| == 0 {
      return NothingToList;
    }
    var kb := UsersKeyboard(students, "message_student");
    ctx.SetState(Teacher(WaitingForStudentMessage));
    r := Choose(kb);
  }

  /** `select_student_for_message`. */
  method SelectStudentForMessage(ctx: FsmContext, data: string) returns (r: Reply)
    modifies ctx
    ensures !(StartsWith(data, "message_student_") && old(ctx.state) == Some(Teacher(WaitingForStudentMessage))) ==>
              r == NotHandled && unchanged(ctx)
    ensures StartsWith(data, "message_student_") && old(ctx.state) == Some(Teacher(WaitingForStudentMessage)) ==>
              if CallbackId(data).None? then r == Crash && unchanged(ctx)
              else && r == Prompt && ctx.state == Some(Teacher(WaitingForMessageText))
                   && ctx.data == old(ctx.data).(studentId := CallbackId(data))
  {
    if !StartsWith(data, "message_student_") || ctx.state != Some(Teacher(WaitingForStudentMessage)) {
      return NotHandled;
    }
    var id := CallbackId(data);
    if id.None? {
      return Crash;
    }
    ctx.data := ctx.data.(studentId := id);
    ctx.SetState(Teacher(WaitingForMessageText));
    r := Prompt;
  }

  /** `send_message_to_student`: a missing student key raises before the `try` and keeps
      the state; otherwise the message row is stored first, then delivery is attempted
      (`delivered` is its outcome), and the state is cleared either way. */
  method SendMessageToStudent(db: Database, ctx: FsmContext, sender: int, text: string,
                              timestamp: string, delivered: bool) returns (r: Reply)
    requires db.Valid()
    modifies db, ctx
    ensures db.Valid()
    ensures !(old(ctx.state) == Some(Teacher(WaitingForMessageText)) && text != CancelLabel) ==>
              r == NotHandled && unchanged(db) && unchanged(ctx)
    ensures old(ctx.state) == Some(Teacher(WaitingForMessageText)) && text != CancelLabel ==>
              if old(ctx.data).studentId.None? then r == Crash && unchanged(db) && unchanged(ctx)
              else
                && r == (if delivered then Done else Failed)
                && ctx.state == None && ctx.data == NoData
                && db.Snap() == old(db.Snap()).(messages := old(db.messages) +
                     [MessageRow(sender, old(ctx.data).studentId.value, text, timestamp)])
  {
    if ctx.state != Some(Teacher(WaitingForMessageText)) || text == CancelLabel {
      return NotHandled;
    }
    if ctx.data.studentId.None? {
      return Crash;
    }
    db.AddMessage(sender, ctx.data.studentId.value, text, timestamp);
    r := if delivered then Done else Failed;
    ctx.Clear();
  }

  /** `cancel_teacher_action`: from any state, clears it and shows the sender's menu (the
      teacher menu when the sender has no row). */
  method CancelTeacherAction(db: Database, ctx: FsmContext, sender: int, text: string) returns (r: Reply)
    modifies ctx
    ensures text != CancelLabel ==> r == NotHandled && unchanged(ctx)
    ensures text == CancelLabel ==>
              && ctx.state == None && ctx.data == NoData
              && r == Menu(MenuFor(if db.GetUser(sender).Some? then db.GetUser(sender).value.role else "teacher"))
  {
    if text != CancelLabel {
      return NotHandled;
    }
    var user := db.GetUser(sender);
    var role := if user.Some? then user.value.role else "teacher";
    var labels := MainMenu(role);
    ctx.Clear();
    r := Menu(labels);
  }
}
