/** bot_clge/handlers/student.py: a student views the group's schedule and their own
    grades, and writes to one of the teachers who teach the group. */
module StudentHandlers {
  import opened Wrappers
  import opened Text
  import opened Seqs
  import opened Tables
  import opened Store
  import opened Helpers
  import opened Keyboards
  import opened Conversation

  // ------------------------------------------------------------ the group's teachers

  /** The teacher id of each schedule item, in order. */
  function TeacherIds(items: seq<ScheduleEntry>): (r: seq<int>)
    ensures |r| == |items| && forall i :: 0 <= i < |items| ==> r[i] == items[i].row.teacherId
  {
    seq(|items|, i requires 0 <= i < |items| => items[i].row.teacherId)
  }

  /** The rows `get_user` finds for `ids`, in order, ids without a row skipped. */
  function FoundUsers(us: seq<User>, ids: seq<int>): (r: seq<User>)
    ensures forall u :: u in r ==> u in us && u.id in ids
  {
    if ids == [] then []
    else
      var init, last := ids[..|ids| - 1], ids[|ids| - 1];
      assert ids == init + [last];
      FoundUsers(us, init) + (match FindUser(us, last) case Some(u) => [u] case None => [])
  }

  /** In a table keyed by id, the found rows are exactly the rows whose id is asked for,
      and distinct ids give each row once. */
  lemma {:induction false} FoundUsersExact(us: seq<User>, ids: seq<int>)
    requires KeyOrdered(us)
    ensures forall u :: u in FoundUsers(us, ids) <==> u in us && u.id in ids
    ensures (forall i, j :: 0 <= i < j < |ids| ==> ids[i] != ids[j]) ==>
              forall i, j :: 0 <= i < j < |FoundUsers(us, ids)| ==>
                FoundUsers(us, ids)[i].id != FoundUsers(us, ids)[j].id
  {
    if ids != [] {
      var init, last := ids[..|ids| - 1], ids[|ids| - 1];
      assert ids == init + [last];
      FoundUsersExact(us, init);
      forall u | u in us && u.id in ids ensures u in FoundUsers(us, ids) {
        FindUserUnique(us, u);
      }
    }
  }

  /** A teacher id appears in the group's schedule exactly when some stored row puts that
      teacher in front of the group. */
  lemma TeacherInSchedule(us: seq<User>, rows: seq<ScheduleRow>, g: int, t: int)
    ensures t in TeacherIds(ScheduleOfGroup(us, rows, g)) <==> Teaches(rows, t, g)
  {
    var es := ScheduleOfGroup(us, rows, g);
    var rs := ScheduleRows(es);
    if t in TeacherIds(es) {
      var i :| 0 <= i < |es| && TeacherIds(es)[i] == t;
      var x := rs[i];
      assert multiset(rs)[x] > 0;
      assert x in rows;
      var j :| 0 <= j < |rows| && rows[j] == x;
      assert rows[j].teacherId == t && rows[j].groupId == g;
    }
    if Teaches(rows, t, g) {
      var j :| 0 <= j < |rows| && rows[j].teacherId == t && rows[j].groupId == g;
      var x := rows[j];
      assert multiset(rows)[x] > 0;
      assert x in rs;
      var i :| 0 <= i < |rs| && rs[i] == x;
      assert TeacherIds(es)[i] == t;
    }
  }

  /** The teachers `start_write_to_teacher` offers to a member of group `g`. */
  function OfferedTeachers(us: seq<User>, rows: seq<ScheduleRow>, g: int): seq<User> {
    FoundUsers(us, Dedup(TeacherIds(ScheduleOfGroup(us, rows, g))))
  }

  /** The offer lists every user teaching the group, whatever their current role, once
      each, and nobody else. */
  lemma OfferedTeachersExact(us: seq<User>, rows: seq<ScheduleRow>, g: int)
    requires KeyOrdered(us)
    ensures forall u :: u in OfferedTeachers(us, rows, g) <==> u in us && Teaches(rows, u.id, g)
    ensures forall i, j :: 0 <= i < j < |OfferedTeachers(us, rows, g)| ==>
              OfferedTeachers(us, rows, g)[i].id != OfferedTeachers(us, rows, g)[j].id
  {
    var ids := Dedup(TeacherIds(ScheduleOfGroup(us, rows, g)));
    FoundUsersExact(us, ids);
    forall u: User ensures u.id in ids <==> Teaches(rows, u.id, g) {
      TeacherInSchedule(us, rows, g, u.id);
    }
  }

  /** Writing is symmetric with the teacher side: a student in a group can pick a teacher
      exactly when that teacher's student list holds the student. */
  lemma WriteToTeacherSymmetric(us: seq<User>, rows: seq<ScheduleRow>, s: User, t: User)
    requires KeyOrdered(us) && s in us && t in us
    requires s.role == "student" && s.groupId.Some?
    ensures t in OfferedTeachers(us, rows, s.groupId.value) <==> s in StudentsOfTeacher(us, rows, t.id)
  {
    OfferedTeachersExact(us, rows, s.groupId.value);
  }

  /** The `teachers_dict` loop: each teacher id once, in order of first appearance. */
  method DistinctTeacherIds(items: seq<ScheduleEntry>) returns (ids: seq<int>)
    ensures ids == Dedup(TeacherIds(items))
    ensures forall i, j :: 0 <= i < j < |ids| ==>
              FirstIndex(TeacherIds(items), ids[i]) < FirstIndex(TeacherIds(items), ids[j])
  {
    ids := [];
    var seen: set<int> := {};
    ghost var done: seq<int> := [];
    for i := 0 to |items|
      invariant done == TeacherIds(items)[..i]
      invariant ids == Dedup(done)
      invariant forall t :: t in seen <==> t in ids
    {
      var t := items[i].row.teacherId;
      assert (done + [t])[..|done|] == done;
      if t !in seen {
        seen := seen + {t};
        ids := ids + [t];
      }
      done := done + [t];
      assert done == TeacherIds(items)[..i + 1];
    }
    assert done == TeacherIds(items);
    DedupFirstAppearance(TeacherIds(items));
  }

  /** The `teachers` loop: `get_user` for each id, keeping the rows that exist. */
  method ExistingUsers(db: Database, ids: seq<int>) returns (found: seq<User>)
    ensures found == FoundUsers(db.users, ids)
  {
    found := [];
    for i := 0 to |ids|
      invariant found == FoundUsers(db.users, ids[..i])
    {
      assert ids[..i + 1][..i] == ids[..i];
      var u := db.GetUser(ids[i]);
      if u.Some? {
        found := found + [u.value];
      }
    }
    assert ids[..|ids|] == ids;
  }

  // ------------------------------------------------------------ viewing

  /** `view_schedule_student`: a student in a group (group neither NULL nor 0) gets the
      group's schedule formatted; without one, or with an empty schedule, a notice. */
  method ViewScheduleStudent(db: Database, sender: int) returns (r: Reply)
    ensures !HasRole(db.GetUser(sender), "student") ==> r == NoAccess
    ensures HasRole(db.GetUser(sender), "student") && !InGroup(db.GetUser(sender).value) ==> r == NotInGroup
    ensures HasRole(db.GetUser(sender), "student") && InGroup(db.GetUser(sender).value) ==>
              var items := db.GetScheduleByGroup(db.GetUser(sender).value.groupId.value);
              if items == [] then r == NothingToList
              else r == OwnSchedule(ScheduleLines(ScheduleLinesOf(items)))
  {
    var user := db.GetUser(sender);
    if user.None? || user.value.role != "student" {
      return NoAccess;
    }
    if user.value.groupId.None? || user.value.groupId.value == 0 {
      return NotInGroup;
    }
    var items := db.GetScheduleByGroup(user.value.groupId.value);
    if |items| == 0 {
      return NothingToList;
    }
    var text := FormatSchedule(items);
    r := OwnSchedule(text);
  }

  /** `view_grades_student`: a student gets their own grades, grouped by subject. */
  method ViewGradesStudent(db: Database, sender: int) returns (r: Reply)
    ensures !HasRole(db.GetUser(sender), "student") ==> r == NoAccess
    ensures HasRole(db.GetUser(sender), "student") ==>
              r == OwnGrades(if db.GetGradesByStudent(sender) == [] then NoGrades
                             else GradeBlocks(BlocksOf(db.GetGradesByStudent(sender))))
  {
    var user := db.GetUser(sender);
    if user.None? || user.value.role != "student" {
      return NoAccess;
    }
    var grades := db.GetGradesByStudent(sender);
    var text := FormatGrades(grades);
    r := OwnGrades(text);
  }

  // ------------------------------------------------------------ writing to a teacher

  /** `start_write_to_teacher`: a student in a group whose schedule is not empty is offered
      the group's teachers that have a user row, and waits for the choice. */
  method StartWriteToTeacher(db: Database, ctx: FsmContext, sender: int) returns (r: Reply)
    modifies ctx
    ensures !HasRole(db.GetUser(sender), "student") ==> r == NoAccess && unchanged(ctx)
    ensures HasRole(db.GetUser(sender), "student") && !InGroup(db.GetUser(sender).value) ==>
              r == NotInGroup && unchanged(ctx)
    ensures HasRole(db.GetUser(sender), "student") && InGroup(db.GetUser(sender).value) ==>
              var g := db.GetUser(sender).value.groupId.value;
              var teachers := OfferedTeachers(db.users, db.schedule, g);
              if db.GetScheduleByGroup(g) == [] || teachers == [] then r == NothingToList && unchanged(ctx)
              else && r.Choose? && OffersUsers(r.buttons, teachers, "message_teacher")
                   && ctx.state == Some(Student(WaitingForTeacher)) && ctx.data == old(ctx.data)
  {
    var user := db.GetUser(sender);
    if user.None? || user.value.role != "student" {
      return NoAccess;
    }
    if user.value.groupId.None? || user.value.groupId.value == 0 {
      return NotInGroup;
    }
    var items := db.GetScheduleByGroup(user.value.groupId.value);
    if |items| == 0 {
      return NothingToList;
    }
    var ids := DistinctTeacherIds(items);
    var teachers := ExistingUsers(db, ids);
    if |teachers| == 0 {
      return NothingToList;
    }
    var kb := UsersKeyboard(teachers, "message_teacher");
    ctx.SetState(Student(WaitingForTeacher));
    r := Choose(kb);
  }

  /** `select_teacher_for_message`. */
  method SelectTeacherForMessage(ctx: FsmContext, data: string) returns (r: Reply)
    modifies ctx
    ensures !(StartsWith(data, "message_teacher_") && old(ctx.state) == Some(Student(WaitingForTeacher))) ==>
              r == NotHandled && unchanged(ctx)
    ensures StartsWith(data, "message_teacher_") && old(ctx.state) == Some(Student(WaitingForTeacher)) ==>
              if CallbackId(data).None? then r == Crash && unchanged(ctx)
              else && r == Prompt && ctx.state == Some(Student(WaitingForTeacherMessage))
                   && ctx.data == old(ctx.data).(teacherId := CallbackId(data))
  {
    if !StartsWith(data, "message_teacher_") || ctx.state != Some(Student(WaitingForTeacher)) {
      return NotHandled;
    }
    var id := CallbackId(data);
    if id.None? {
      return Crash;
    }
    ctx.data := ctx.data.(teacherId := id);
    ctx.SetState(Student(WaitingForTeacherMessage));
    r := Prompt;
  }

  /** `send_message_to_teacher`: a missing teacher key raises before the `try` and keeps
      the state; otherwise the message row is stored first, then delivery is attempted
      (`delivered` is its outcome), and the state is cleared either way. */
  method SendMessageToTeacher(db: Database, ctx: FsmContext, sender: int, text: string,
                              timestamp: string, delivered: bool) returns (r: Reply)
    requires db.Valid()
    modifies db, ctx
    ensures db.Valid()
    ensures !(old(ctx.state) == Some(Student(WaitingForTeacherMessage)) && text != CancelLabel) ==>
              r == NotHandled && unchanged(db) && unchanged(ctx)
    ensures old(ctx.state) == Some(Student(WaitingForTeacherMessage)) && text != CancelLabel ==>
              if old(ctx.data).teacherId.None? then r == Crash && unchanged(db) && unchanged(ctx)
              else
                && r == (if delivered then Done else Failed)
                && ctx.state == None && ctx.data == NoData
                && db.Snap() == old(db.Snap()).(messages := old(db.messages) +
                     [MessageRow(sender, old(ctx.data).teacherId.value, text, timestamp)])
  {
    if ctx.state != Some(Student(WaitingForTeacherMessage)) || text == CancelLabel {
      return NotHandled;
    }
    if ctx.data.teacherId.None? {
      return Crash;
    }
    db.AddMessage(sender, ctx.data.teacherId.value, text, timestamp);
    r := if delivered then Done else Failed;
    ctx.Clear();
  }

  /** `cancel_student_action`: clears the state and shows the sender's menu (the student
      menu when the sender has no row). */
  method CancelStudentAction(db: Database, ctx: FsmContext, sender: int, text: string) returns (r: Reply)
    modifies ctx
    ensures text != CancelLabel ==> r == NotHandled && unchanged(ctx)
    ensures text == CancelLabel ==>
              && ctx.state == None && ctx.data == NoData
              && r == Menu(MenuFor(if db.GetUser(sender).Some? then db.GetUser(sender).value.role else "student"))
  {
    if text != CancelLabel {
      return NotHandled;
    }
    var user := db.GetUser(sender);
    var role := if user.Some? then user.value.role else "student";
    var labels := MainMenu(role);
    ctx.Clear();
    r := Menu(labels);
  }
}
