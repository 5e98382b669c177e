/** The five tables of the bot's SQLite file and what each SQL statement of
    bot_clge/database/db.py does to them, as functions on in-memory rows.
    `PRAGMA foreign_keys` is never turned on, so no statement checks a reference. */
module Tables {
  import opened Wrappers
  import opened Seqs
  import opened Text

  /** A row of `users`; `user_id` is the INTEGER PRIMARY KEY (the rowid). */
  datatype User = User(id: int, username: Option<string>, fullName: string, role: string,
                       groupId: Option<int>)

  /** A row of `groups`; `group_id` comes from AUTOINCREMENT, `group_name` is UNIQUE. */
  datatype Group = Group(id: int, name: string)

  datatype ScheduleRow = ScheduleRow(groupId: int, day: int, lesson: int, subject: string,
                                     teacherId: int)

  datatype GradeRow = GradeRow(studentId: int, teacherId: int, subject: string, grade: int,
                               date: string)

  datatype MessageRow = MessageRow(fromId: int, toId: int, text: string, timestamp: string)

  /** A row of a query that LEFT JOINs `users` for the teacher's `full_name`
      (`None` when the teacher has no user row). */
  datatype ScheduleEntry = ScheduleEntry(row: ScheduleRow, teacherName: Option<string>)
  datatype GradeEntry = GradeEntry(row: GradeRow, teacherName: Option<string>)

  /** The whole database file at one moment. */
  datatype Snapshot = Snapshot(users: seq<User>, groups: seq<Group>, groupSeq: int,
                               schedule: seq<ScheduleRow>, grades: seq<GradeRow>,
                               messages: seq<MessageRow>)

  /** The error `INSERT INTO groups` raises on a name already present. */
  datatype DbError = UniqueViolation

  // ---------------------------------------------------------------- users

  /** The rows of `users` in rowid order, the order a scan of the table returns them. */
  predicate KeyOrdered(us: seq<User>) {
    forall i, j :: 0 <= i < j < |us| ==> us[i].id < us[j].id
  }

  /** `SELECT * FROM users WHERE user_id = ?`. */
  function FindUser(us: seq<User>, id: int): (r: Option<User>)
    ensures r.Some? ==> r.value in us && r.value.id == id
    ensures r.None? ==> forall u :: u in us ==> u.id != id
  {
    if us == [] then None
    else if us[0].id == id then Some(us[0])
    else FindUser(us[1..], id)
  }

  /** In a table keyed by `user_id`, the row found for an id is the one row with it. */
  lemma FindUserUnique(us: seq<User>, u: User)
    requires KeyOrdered(us) && u in us
    ensures FindUser(us, u.id) == Some(u)
  {
    var v := FindUser(us, u.id).value;
    var i :| 0 <= i < |us| && us[i] == u;
    var j :| 0 <= j < |us| && us[j] == v;
    assert i == j;
  }

  /** `INSERT OR REPLACE INTO users`: the row with `u.id`, if any, is replaced whole by `u`;
      without one, `u` is inserted at its key position. */
  function Upsert(us: seq<User>, u: User): (r: seq<User>)
    requires KeyOrdered(us)
    ensures u in r
    ensures forall v :: v in r ==> v == u || (v in us && v.id != u.id)
    ensures forall v :: v in us && v.id != u.id ==> v in r
    ensures KeyOrdered(r)
  {
    if us == [] then [u]
    else if us[0].id == u.id then [u] + us[1..]
    else if u.id < us[0].id then [u] + us
    else [us[0]] + Upsert(us[1..], u)
  }

  /** After `add_user` the id reads back exactly the given row, and every other id reads
      back what it read before. */
  lemma {:induction false} FindAfterUpsert(us: seq<User>, u: User, x: int)
    requires KeyOrdered(us)
    ensures FindUser(Upsert(us, u), x) == if x == u.id then Some(u) else FindUser(us, x)
  {
    var r := Upsert(us, u);
    if x == u.id {
      FindUserUnique(r, u);
    } else if FindUser(us, x).Some? {
      FindUserUnique(r, FindUser(us, x).value);
    } else {
      assert forall v :: v in r ==> v.id != x;
    }
  }

  /** The column an `UPDATE users SET … WHERE user_id = ?` writes. */
  datatype Column = RoleColumn(role: string) | GroupColumn(groupId: Option<int>)

  function Apply(u: User, c: Column): (v: User)
    ensures v.id == u.id && v.username == u.username && v.fullName == u.fullName
    ensures c.RoleColumn? ==> v.role == c.role && v.groupId == u.groupId
    ensures c.GroupColumn? ==> v.groupId == c.groupId && v.role == u.role
  {
    match c
    case RoleColumn(role) => u.(role := role)
    case GroupColumn(g) => u.(groupId := g)
  }

  /** `UPDATE users SET <column> = ? WHERE user_id = ?`. */
  function SetColumn(us: seq<User>, id: int, c: Column): (r: seq<User>)
    ensures |r| == |us|
    ensures forall i :: 0 <= i < |us| ==> r[i].id == us[i].id
    ensures forall i :: 0 <= i < |us| && us[i].id != id ==> r[i] == us[i]
    ensures forall i :: 0 <= i < |us| && us[i].id == id ==> r[i] == Apply(us[i], c)
    ensures KeyOrdered(us) ==> KeyOrdered(r)
  {
    if us == [] then []
    else [if us[0].id == id then Apply(us[0], c) else us[0]] + SetColumn(us[1..], id, c)
  }

  /** What a lookup reads back after the column is written, from what it read before. */
  function ApplyFound(found: Option<User>, c: Column): Option<User> {
    match found
    case Some(u) => Some(Apply(u, c))
    case None => None
  }

  /** An UPDATE by key writes one column of one row: the row with `id` reads back with
      that column changed, nothing is created when there is no such row, and every other
      id reads back what it read before. */
  lemma {:induction false} FindAfterSetColumn(us: seq<User>, id: int, c: Column, x: int)
    ensures FindUser(SetColumn(us, id, c), x) ==
              if x == id then ApplyFound(FindUser(us, x), c) else FindUser(us, x)
  {
    if us != [] {
      var r := SetColumn(us, id, c);
      assert r[1..] == SetColumn(us[1..], id, c);
      if us[0].id != x {
        FindAfterSetColumn(us[1..], id, c, x);
      }
    }
  }

  /** `SELECT * FROM users WHERE role = ?`. */
  function UsersWithRole(us: seq<User>, role: string): (r: seq<User>)
    ensures forall u :: u in r <==> u in us && u.role == role
  {
    Filter(us, (u: User) => u.role == role)
  }

  /** Each row of the role is listed as often as it is stored. */
  lemma UsersWithRoleCount(us: seq<User>, role: string)
    ensures forall u :: multiset(UsersWithRole(us, role))[u] == if u.role == role then multiset(us)[u] else 0
  {
    FilterMultiset(us, (u: User) => u.role == role);
  }

  /** `SELECT * FROM users WHERE group_id = ?` (a NULL group never equals a number). */
  function UsersInGroup(us: seq<User>, g: int): (r: seq<User>)
    ensures forall u :: u in r <==> u in us && u.groupId == Some(g)
  {
    Filter(us, (u: User) => u.groupId == Some(g))
  }

  /** A row placed before rows with larger keys keeps the table in key order. */
  lemma ConsKeyOrdered(u: User, rest: seq<User>)
    requires KeyOrdered(rest) && forall v :: v in rest ==> u.id < v.id
    ensures KeyOrdered([u] + rest)
  {
    var r := [u] + rest;
    forall i, j | 0 <= i < j < |r|
      ensures r[i].id < r[j].id
    {
      assert r[j] == rest[j - 1];
      if i > 0 {
        assert r[i] == rest[i - 1];
      }
    }
  }

  /** Every filter over the users table keeps rowid order, so it returns no row twice. */
  lemma {:induction false} FilterKeyOrdered(us: seq<User>, p: User -> bool)
    ensures KeyOrdered(us) ==> KeyOrdered(Filter(us, p))
  {
    if us != [] && KeyOrdered(us) {
      var tail := us[1..];
      var rest := Filter(tail, p);
      FilterKeyOrdered(tail, p);
      if p(us[0]) {
        forall v | v in rest
          ensures us[0].id < v.id
        {
          var k :| 0 <= k < |tail| && tail[k] == v;
          assert us[k + 1] == v;
        }
        ConsKeyOrdered(us[0], rest);
      }
    }
  }

  // ---------------------------------------------------------------- groups

  /** The groups table with its `sqlite_sequence` entry: rows in rowid order, every id
      issued so far at most `seqNo`, names unique. */
  predicate GroupsValid(gs: seq<Group>, seqNo: int) {
    && 0 <= seqNo
    && (forall i, j :: 0 <= i < j < |gs| ==> gs[i].id < gs[j].id)
    && (forall i :: 0 <= i < |gs| ==> 1 <= gs[i].id <= seqNo)
    && (forall i, j :: 0 <= i < j < |gs| ==> gs[i].name != gs[j].name)
  }

  predicate HasGroupNamed(gs: seq<Group>, name: string) {
    exists i :: 0 <= i < |gs| && gs[i].name == name
  }

  /** `INSERT INTO groups (group_name) VALUES (?)` under AUTOINCREMENT: a name already
      present raises and leaves the table alone; otherwise the row gets the id one past the
      largest ever issued, which is returned as `lastrowid`. */
  function InsertGroup(gs: seq<Group>, seqNo: int, name: string)
    : (r: (Result<int, DbError>, seq<Group>, int))
    requires GroupsValid(gs, seqNo)
    ensures GroupsValid(r.1, r.2)
    ensures r.0.Err? <==> HasGroupNamed(gs, name)
    ensures r.0.Err? ==> r.1 == gs && r.2 == seqNo
    ensures r.0.Ok? ==> && r.0.value == seqNo + 1 == r.2
                        && r.1 == gs + [Group(r.0.value, name)]
                        && forall i :: 0 <= i < |gs| ==> gs[i].id < r.0.value
  {
    if HasGroupNamed(gs, name) then (Err(UniqueViolation), gs, seqNo)
    else (Ok(seqNo + 1), gs + [Group(seqNo + 1, name)], seqNo + 1)
  }

  /** `DELETE FROM groups WHERE group_id = ?`: the counter is left where it is, so the id
      is never issued again. */
  function DeleteGroupRow(gs: seq<Group>, id: int): (r: seq<Group>)
    ensures forall g :: g in r <==> g in gs && g.id != id
  {
    Filter(gs, (g: Group) => g.id != id)
  }

  /** A row placed before rows with larger ids and other names keeps the table valid. */
  lemma ConsGroupsValid(g: Group, rest: seq<Group>, seqNo: int)
    requires GroupsValid(rest, seqNo) && 1 <= g.id <= seqNo
    requires forall v :: v in rest ==> g.id < v.id && g.name != v.name
    ensures GroupsValid([g] + rest, seqNo)
  {
    var r := [g] + rest;
    forall i, j | 0 <= i < j < |r|
      ensures r[i].id < r[j].id && r[i].name != r[j].name
    {
      assert r[j] == rest[j - 1];
      if i > 0 {
        assert r[i] == rest[i - 1];
      }
    }
    assert forall i :: 0 < i < |r| ==> r[i] == rest[i - 1];
  }

  /** Deleting keeps the table valid: what is left is a subsequence of a valid table. */
  lemma {:induction false} DeleteGroupValid(gs: seq<Group>, seqNo: int, id: int)
    requires GroupsValid(gs, seqNo)
    ensures GroupsValid(DeleteGroupRow(gs, id), seqNo)
  {
    if gs != [] {
      var tail := gs[1..];
      DeleteGroupValid(tail, seqNo, id);
      var rest := DeleteGroupRow(tail, id);
      if gs[0].id != id {
        forall v | v in rest
          ensures gs[0].id < v.id && gs[0].name != v.name
        {
          var k :| 0 <= k < |tail| && tail[k] == v;
          assert gs[k + 1] == v;
        }
        ConsGroupsValid(gs[0], rest, seqNo);
        assert DeleteGroupRow(gs, id) == [gs[0]] + rest;
      } else {
        assert DeleteGroupRow(gs, id) == rest;
      }
    }
  }

  // ---------------------------------------------------------------- schedule and grades

  /** The full name a LEFT JOIN on `users` attaches to a teacher id. */
  function TeacherName(us: seq<User>, teacherId: int): (r: Option<string>)
    ensures r.Some? <==> exists u :: u in us && u.id == teacherId
  {
    match FindUser(us, teacherId)
    case Some(u) => Some(u.fullName)
    case None => None
  }

  /** `ORDER BY day_of_week, lesson_number`. */
  predicate SlotLe(a: ScheduleRow, b: ScheduleRow) {
    a.day < b.day || (a.day == b.day && a.lesson <= b.lesson)
  }

  /** `ORDER BY date DESC` with SQLite's BINARY text ordering. */
  predicate DateDesc(a: GradeRow, b: GradeRow) {
    StrLe(b.date, a.date)
  }

  lemma SlotLePreorder()
    ensures TotalPreorder(SlotLe)
  {
  }

  lemma DateDescPreorder()
    ensures TotalPreorder(DateDesc)
  {
    forall a: GradeRow, b: GradeRow
      ensures DateDesc(a, b) || DateDesc(b, a)
    {
      StrLeTotal(a.date, b.date);
    }
    forall a: GradeRow, b: GradeRow, c: GradeRow | DateDesc(a, b) && DateDesc(b, c)
      ensures DateDesc(a, c)
    {
      StrLeTransitive(c.date, b.date, a.date);
    }
  }

  function ScheduleRows(es: seq<ScheduleEntry>): (r: seq<ScheduleRow>)
    ensures |r| == |es| && forall i :: 0 <= i < |es| ==> r[i] == es[i].row
  {
    seq(|es|, i requires 0 <= i < |es| => es[i].row)
  }

  function GradeRows(es: seq<GradeEntry>): (r: seq<GradeRow>)
    ensures |r| == |es| && forall i :: 0 <= i < |es| ==> r[i] == es[i].row
  {
    seq(|es|, i requires 0 <= i < |es| => es[i].row)
  }

  /** `SELECT s.*, u.full_name AS teacher_name FROM schedule s LEFT JOIN users u …
      WHERE s.group_id = ? ORDER BY s.day_of_week, s.lesson_number`: exactly the group's
      rows, as often as stored, in slot order, each with its teacher's name if the
      teacher has a user row. */
  function ScheduleOfGroup(us: seq<User>, rows: seq<ScheduleRow>, g: int)
    : (r: seq<ScheduleEntry>)
    ensures forall x :: multiset(ScheduleRows(r))[x] ==
                          if x.groupId == g then multiset(rows)[x] else 0
    ensures SortedBy(ScheduleRows(r), SlotLe)
    ensures forall i :: 0 <= i < |r| ==> r[i].teacherName == TeacherName(us, r[i].row.teacherId)
  {
    var sorted := InsertionSort(Filter(rows, (x: ScheduleRow) => x.groupId == g), SlotLe);
    SlotLePreorder();
    FilterMultiset(rows, (x: ScheduleRow) => x.groupId == g);
    InsertionSortSorted(Filter(rows, (x: ScheduleRow) => x.groupId == g), SlotLe);
    var r := seq(|sorted|, i requires 0 <= i < |sorted| =>
                 ScheduleEntry(sorted[i], TeacherName(us, sorted[i].teacherId)));
    assert ScheduleRows(r) == sorted;
    r
  }

  /** `SELECT g.*, u.full_name AS teacher_name FROM grades g LEFT JOIN users u …
      WHERE g.student_id = ? ORDER BY g.date DESC`. */
  function GradesOfStudent(us: seq<User>, rows: seq<GradeRow>, s: int)
    : (r: seq<GradeEntry>)
    ensures forall x :: multiset(GradeRows(r))[x] ==
                          if x.studentId == s then multiset(rows)[x] else 0
    ensures SortedBy(GradeRows(r), DateDesc)
    ensures forall i :: 0 <= i < |r| ==> r[i].teacherName == TeacherName(us, r[i].row.teacherId)
  {
    var sorted := InsertionSort(Filter(rows, (x: GradeRow) => x.studentId == s), DateDesc);
    DateDescPreorder();
    FilterMultiset(rows, (x: GradeRow) => x.studentId == s);
    InsertionSortSorted(Filter(rows, (x: GradeRow) => x.studentId == s), DateDesc);
    var r := seq(|sorted|, i requires 0 <= i < |sorted| =>
                 GradeEntry(sorted[i], TeacherName(us, sorted[i].teacherId)));
    assert GradeRows(r) == sorted;
    r
  }

  /** Some schedule row puts teacher `t` in front of group `g`. */
  predicate Teaches(rows: seq<ScheduleRow>, t: int, g: int) {
    exists i :: 0 <= i < |rows| && rows[i].teacherId == t && rows[i].groupId == g
  }

  predicate IsStudentOf(rows: seq<ScheduleRow>, t: int, u: User) {
    u.role == "student" && u.groupId.Some? && Teaches(rows, t, u.groupId.value)
  }

  /** `SELECT DISTINCT u.* FROM users u INNER JOIN schedule s ON u.group_id = s.group_id
      WHERE s.teacher_id = ? AND u.role = 'student'`: the students whose group the teacher
      has a lesson with, each once. A user without a group never joins. */
  function StudentsOfTeacher(us: seq<User>, rows: seq<ScheduleRow>, t: int): (r: seq<User>)
    ensures forall u :: u in r <==> u in us && IsStudentOf(rows, t, u)
    ensures KeyOrdered(us) ==> KeyOrdered(r)
  {
    var r := Filter(us, (u: User) => IsStudentOf(rows, t, u));
    FilterKeyOrdered(us, (u: User) => IsStudentOf(rows, t, u));
    r
  }

  /** "My students" is derived through the schedule: once a row puts `t` in front of a
      group, every student of that group is one of `t`'s students on the next query. */
  lemma StudentsFollowSchedule(us: seq<User>, rows: seq<ScheduleRow>, row: ScheduleRow, u: User)
    requires u in us && u.role == "student" && u.groupId == Some(row.groupId)
    ensures u in StudentsOfTeacher(us, rows + [row], row.teacherId)
  {
    assert (rows + [row])[|rows|] == row;
  }
}
