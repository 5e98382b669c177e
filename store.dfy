/** The `Database` object of bot_clge/database/db.py: one SQLite file whose tables each
    statement reads or rewrites. Connections, commits and row factories are not modelled;
    each method is one statement on the tables held in the fields below. */
module Store {
  import opened Wrappers
  import opened Seqs
  import opened Tables

  class Database {
    var users: seq<User>
    var groups: seq<Group>
    /** The `sqlite_sequence` entry of `groups`: the largest group id ever issued. */
    var groupSeq: int
    var schedule: seq<ScheduleRow>
    var grades: seq<GradeRow>
    var messages: seq<MessageRow>

    /** What the schema guarantees: users unique by key and scanned in key order, group
        ids increasing and never above the counter, group names unique. */
    ghost predicate Valid()
      reads this
    {
      KeyOrdered(users) && GroupsValid(groups, groupSeq)
    }

    function Snap(): Snapshot
      reads this
    {
      Snapshot(users, groups, groupSeq, schedule, grades, messages)
    }

    /** `init_db` on a new file: five empty tables. */
    constructor ()
      ensures Valid()
      ensures Snap() == Snapshot([], [], 0, [], [], [])
    {
      users, groups, groupSeq := [], [], 0;
      schedule, grades, messages := [], [], [];
    }

    // ------------------------------------------------------------ queries

    function GetUser(userId: int): Option<User>
      reads this
    {
      FindUser(users, userId)
    }

    function GetAllGroups(): seq<Group>
      reads this
    {
      groups
    }

    function GetGroupByName(name: string): Option<Group>
      reads this
    {
      FindFirst(groups, (g: Group) => g.name == name)
    }

    function GetGroupById(groupId: int): Option<Group>
      reads this
    {
      FindFirst(groups, (g: Group) => g.id == groupId)
    }

    function GetUsersByRole(role: string): seq<User>
      reads this
    {
      UsersWithRole(users, role)
    }

    function GetUsersByGroup(groupId: int): seq<User>
      reads this
    {
      UsersInGroup(users, groupId)
    }

    function GetScheduleByGroup(groupId: int): seq<ScheduleEntry>
      reads this
    {
      ScheduleOfGroup(users, schedule, groupId)
    }

    function GetGradesByStudent(studentId: int): seq<GradeEntry>
      reads this
    {
      GradesOfStudent(users, grades, studentId)
    }

    function GetStudentsByTeacher(teacherId: int): seq<User>
      reads this
    {
      StudentsOfTeacher(users, schedule, teacherId)
    }

    // ------------------------------------------------------------ statements

    /** `add_user`: insert or fully replace the user's row; role defaults to 'student' and
        group to NULL. */
    method AddUser(userId: int, username: Option<string>, fullName: string,
                   role: string := "student", groupId: Option<int> := None)
      requires Valid()
      modifies this
      ensures Valid()
      ensures GetUser(userId) == Some(User(userId, username, fullName, role, groupId))
      ensures forall x :: x != userId ==> GetUser(x) == old(GetUser(x))
      ensures Snap() == old(Snap()).(users := users)
    {
      var u := User(userId, username, fullName, role, groupId);
      forall x ensures FindUser(Upsert(users, u), x) == if x == userId then Some(u) else FindUser(users, x) {
        FindAfterUpsert(users, u, x);
      }
      users := Upsert(users, u);
    }

    /** `update_user_role`: only that user's role changes; an unknown id changes nothing. */
    method UpdateUserRole(userId: int, role: string)
      requires Valid()
      modifies this
      ensures Valid()
      ensures GetUser(userId) == ApplyFound(old(GetUser(userId)), RoleColumn(role))
      ensures forall x :: x != userId ==> GetUser(x) == old(GetUser(x))
      ensures Snap() == old(Snap()).(users := users)
    {
      SetUserColumn(userId, RoleColumn(role));
    }

    /** `update_user_group`: only that user's group changes; an unknown id changes nothing. */
    method UpdateUserGroup(userId: int, groupId: Option<int>)
      requires Valid()
      modifies this
      ensures Valid()
      ensures GetUser(userId) == ApplyFound(old(GetUser(userId)), GroupColumn(groupId))
      ensures forall x :: x != userId ==> GetUser(x) == old(GetUser(x))
      ensures Snap() == old(Snap()).(users := users)
    {
      SetUserColumn(userId, GroupColumn(groupId));
    }

    /** `delete_user_from_group`: the user's group becomes NULL, nothing else changes. */
    method DeleteUserFromGroup(userId: int)
      requires Valid()
      modifies this
      ensures Valid()
      ensures GetUser(userId) == ApplyFound(old(GetUser(userId)), GroupColumn(None))
      ensures forall x :: x != userId ==> GetUser(x) == old(GetUser(x))
      ensures Snap() == old(Snap()).(users := users)
    {
      SetUserColumn(userId, GroupColumn(None));
    }

    method SetUserColumn(userId: int, c: Column)
      requires Valid()
      modifies this
      ensures Valid()
      ensures GetUser(userId) == ApplyFound(old(GetUser(userId)), c)
      ensures forall x :: x != userId ==> GetUser(x) == old(GetUser(x))
      ensures Snap() == old(Snap()).(users := users)
    {
      forall x
        ensures FindUser(SetColumn(users, userId, c), x) ==
                  if x == userId then ApplyFound(FindUser(users, x), c) else FindUser(users, x)
      {
        FindAfterSetColumn(users, userId, c, x);
      }
      users := SetColumn(users, userId, c);
    }

    /** `create_group`: a duplicate name raises and changes nothing; otherwise one row is
        added under a fresh id above every id issued before, and that id is returned. */
    method CreateGroup(name: string) returns (r: Result<int, DbError>)
      requires Valid()
      modifies this
      ensures Valid()
      ensures r.Err? <==> old(HasGroupNamed(groups, name))
      ensures r.Err? ==> Snap() == old(Snap())
      ensures r.Ok? ==> && r.value == old(groupSeq) + 1 == groupSeq
                        && groups == old(groups) + [Group(r.value, name)]
                        && (forall i :: 0 <= i < |old(groups)| ==> old(groups)[i].id < r.value)
                        && Snap() == old(Snap()).(groups := groups, groupSeq := groupSeq)
    {
      var res := InsertGroup(groups, groupSeq, name);
      r := res.0;
      groups, groupSeq := res.1, res.2;
    }

    /** `delete_group`: the row goes; users and schedule rows pointing at it stay, and the
        counter keeps the id from being issued again. */
    method DeleteGroup(groupId: int)
      requires Valid()
      modifies this
      ensures Valid()
      ensures forall g :: g in groups <==> g in old(groups) && g.id != groupId
      ensures Snap() == old(Snap()).(groups := groups)
    {
      DeleteGroupValid(groups, groupSeq, groupId);
      groups := DeleteGroupRow(groups, groupId);
    }

    /** `add_schedule`: one row appended as given, with no range or reference check. */
    method AddSchedule(groupId: int, day: int, lesson: int, subject: string, teacherId: int)
      requires Valid()
      modifies this
      ensures Valid()
      ensures Snap() == old(Snap()).(schedule := old(schedule) + [ScheduleRow(groupId, day, lesson, subject, teacherId)])
    {
      schedule := schedule + [ScheduleRow(groupId, day, lesson, subject, teacherId)];
    }

    /** `add_grade`: one row appended as given; the store does not check the 2..5 range. */
    method AddGrade(studentId: int, teacherId: int, subject: string, grade: int, date: string)
      requires Valid()
      modifies this
      ensures Valid()
      ensures Snap() == old(Snap()).(grades := old(grades) + [GradeRow(studentId, teacherId, subject, grade, date)])
    {
      grades := grades + [GradeRow(studentId, teacherId, subject, grade, date)];
    }

    /** `add_message`: one row appended to the message log. */
    method AddMessage(fromId: int, toId: int, text: string, timestamp: string)
      requires Valid()
      modifies this
      ensures Valid()
      ensures Snap() == old(Snap()).(messages := old(messages) + [MessageRow(fromId, toId, text, timestamp)])
    {
      messages := messages + [MessageRow(fromId, toId, text, timestamp)];
    }
  }
}
