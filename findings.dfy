/** Two defects of the handlers, each shown on one concrete scenario (a fixed sequence of
    updates) against the code as written and against the evidently intended handler. */
module Findings {
  import opened Wrappers
  import opened Text
  import opened Tables
  import opened Store
  import opened Keyboards
  import opened Conversation
  import TeacherHandlers
  import AdminHandlers

  /** A new database file whose only row is admin 1. */
  method AdminOnlyDatabase() returns (db: Database)
    ensures fresh(db) && db.Valid()
    ensures HasRole(db.GetUser(1), "admin") && db.groups == [] && db.groupSeq == 0
  {
    db := new Database();
    db.AddUser(1, Some("dean"), "Dean", "admin");
  }

  /** An admin opens group management and types a new group's name. As written, the menu
      handler raises, the state stays empty, the name reaches no handler, and no group is
      ever created. */
  method GroupCreationAsWritten() returns (menu: Reply, typed: Reply, groups: seq<Group>)
    ensures menu == Crash && typed == NotHandled && groups == []
  {
    var db := AdminOnlyDatabase();
    var ctx := new FsmContext();
    menu := AdminHandlers.ManageGroups(ctx, 1);
    typed := AdminHandlers.CreateGroup(db, ctx, "IS-21");
    groups := db.groups;
  }

  /** The conversation after the intended `manage_groups`: the admin is asked for a name. */
  method GroupNameAsked() returns (db: Database, ctx: FsmContext, menu: Reply)
    ensures fresh(db) && fresh(ctx) && db.Valid()
    ensures db.groups == [] && db.groupSeq == 0
    ensures menu == Prompt && ctx.state == Some(Admin(WaitingForGroupName))
  {
    db := AdminOnlyDatabase();
    ctx := new FsmContext();
    menu := AdminHandlers.ManageGroupsIntended(db, ctx, 1);
  }

  /** Helper for the group-creation scenario: the typed name is not the cancel label and
      has no surrounding blanks. */
  lemma GroupNameIsClean()
    ensures "IS-21" != CancelLabel && Strip("IS-21") == "IS-21"
  {
    assert "IS-21"[0] == 'I' && "IS-21"[4] == '1';
    StripClean("IS-21");
  }

  /** The same scenario with `manage_groups` as intended creates the group under id 1. */
  method GroupCreationIntended() returns (menu: Reply, typed: Reply, groups: seq<Group>)
    ensures menu == Prompt && typed == Done && groups == [Group(1, "IS-21")]
  {
    var db, ctx;
    db, ctx, menu := GroupNameAsked();
    GroupNameIsClean();
    typed := AdminHandlers.CreateGroup(db, ctx, "IS-21");
    groups := db.groups;
  }

  /** A fresh conversation in which a teacher has just picked student 2 for a grade. */
  method StudentPicked() returns (ctx: FsmContext)
    ensures fresh(ctx)
    ensures ctx.state == Some(Teacher(WaitingForSubject)) && ctx.data.studentId == Some(2)
  {
    ctx := new FsmContext();
    ctx.SetState(Teacher(WaitingForStudent));
    CallbackRoundTrip("grade_student", 2);
    var picked := TeacherHandlers.SelectStudentForGrade(ctx, CallbackData("grade_student", 2));
  }

  /** Helper for the grade scenario: the grade label "5" is read as grade 5. */
  lemma FiveParses()
    ensures ParseInt(Strip("5")) == Some(5)
  {
    assert "5" == IntToString(5);
    IntToStringRoundTrip(5);
    StripClean("5");
  }

  /** A teacher picks student 2, types the subject, then taps grade "5". As written, the
      subject step raises, the conversation stays on the subject, the grade is taken for
      no handler's input, and no grade is stored. */
  method GradeFlowAsWritten() returns (subject: Reply, grade: Reply, grades: seq<GradeRow>)
    ensures subject == Crash && grade == NotHandled && grades == []
  {
    var db := new Database();
    var ctx := StudentPicked();
    subject := TeacherHandlers.GetSubjectForGrade(ctx, "Math");
    grade := TeacherHandlers.AddGrade(db, ctx, 1, "5", "2024-05-01");
    grades := db.grades;
  }

  /** Helper for the grade scenario: the typed subject has no surrounding blanks, so it is
      stored as typed. */
  lemma MathIsClean()
    ensures Strip("Math") == "Math"
  {
    assert "Math"[0] == 'M' && "Math"[3] == 'h';
    StripClean("Math");
  }

  /** The conversation after the intended subject step. */
  method SubjectTyped() returns (ctx: FsmContext, subject: Reply)
    ensures fresh(ctx) && subject == Prompt
    ensures ctx.state == Some(Teacher(WaitingForGrade))
    ensures ctx.data.studentId == Some(2) && ctx.data.subject == Some("Math")
  {
    ctx := StudentPicked();
    MathIsClean();
    subject := TeacherHandlers.GetSubjectForGradeIntended(ctx, "Math");
  }

  /** The same scenario with the subject step as intended stores exactly that grade. */
  method GradeFlowIntended() returns (subject: Reply, grade: Reply, grades: seq<GradeRow>)
    ensures subject == Prompt && grade == Done
    ensures grades == [GradeRow(2, 1, "Math", 5, "2024-05-01")]
  {
    var db := new Database();
    var ctx;
    ctx, subject := SubjectTyped();
    FiveParses();
    grade := TeacherHandlers.AddGrade(db, ctx, 1, "5", "2024-05-01");
    grades := db.grades;
  }
}
