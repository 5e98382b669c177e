/** bot_clge/keyboards/keyboards.py: the reply keyboards (labels the user can tap, sent
    back as message text) and the inline keyboards (buttons whose callback data comes back
    to a callback handler). Layout (`adjust`, `resize_keyboard`) is not modelled: a keyboard
    is its buttons in the order they are added. */
module Keyboards {
  import opened Wrappers
  import opened Text
  import opened Tables
  import opened Helpers

  const CancelLabel := "❌ Отмена"
  const CancelCallback := "cancel"

  /** The menu labels, one per menu handler. */
  const AdminMenu: seq<string> :=
    ["👥 Управление учителями", "👨‍🎓 Управление студентами", "📚 Управление группами",
     "📢 Рассылка", "👤 Добавить администратора"]
  const TeacherMenu: seq<string> :=
    ["📝 Поставить отметку", "📅 Добавить расписание", "📨 Отправить сообщение студенту",
     "📊 Посмотреть расписание"]
  const StudentMenu: seq<string> := ["📅 Расписание", "📊 Мои отметки", "📨 Написать учителю"]

  /** An inline button: what it shows and the callback data it sends. */
  datatype Button = Button(text: string, callback: string)

  predicate Distinct(labels: seq<string>) {
    forall i, j :: 0 <= i < j < |labels| ==> labels[i] != labels[j]
  }

  /** The menu a role is shown. */
  function MenuFor(role: string): seq<string> {
    if role == "admin" then AdminMenu
    else if role == "teacher" then TeacherMenu
    else if role == "student" then StudentMenu
    else []
  }

  /** `get_main_menu`: the role's labels in order, 5 for an admin, 4 for a teacher, 3 for
      a student; any other role gets an empty menu. No menu offers cancel. */
  method MainMenu(role: string) returns (labels: seq<string>)
    ensures labels == MenuFor(role)
    ensures |labels| == (if role == "admin" then 5 else if role == "teacher" then 4
                         else if role == "student" then 3 else 0)
    ensures Distinct(labels) && CancelLabel !in labels
  {
    labels := [];
    if role == "admin" {
      labels := labels + [AdminMenu[0]];
      labels := labels + [AdminMenu[1]];
      labels := labels + [AdminMenu[2]];
      labels := labels + [AdminMenu[3]];
      labels := labels + [AdminMenu[4]];
    } else if role == "teacher" {
      labels := labels + [TeacherMenu[0]];
      labels := labels + [TeacherMenu[1]];
      labels := labels + [TeacherMenu[2]];
      labels := labels + [TeacherMenu[3]];
    } else if role == "student" {
      labels := labels + [StudentMenu[0]];
      labels := labels + [StudentMenu[1]];
      labels := labels + [StudentMenu[2]];
    }
  }

  /** No label opens two menus' handlers: the three menus share no label. */
  lemma MenusDisjoint()
    ensures Distinct(AdminMenu + TeacherMenu + StudentMenu)
  {
  }

  // ------------------------------------------------------------ callback data

  /** `f"{prefix}_{id}"`. */
  function CallbackData(prefix: string, id: int): (d: string)
    ensures StartsWith(d, prefix + "_")
  {
    prefix + "_" + IntToString(id)
  }

  /** `int(data.split("_")[-1])`, how every callback handler reads the id back; `None`
      stands for the `ValueError` on a tail that is not a number. */
  function CallbackId(data: string): Option<int> {
    ParseInt(LastSegment(data, '_'))
  }

  /** The id a button carries is the id its handler reads, whatever the prefix (even one
      holding underscores of its own, such as "grade_student"). */
  lemma {:induction false} CallbackRoundTrip(prefix: string, id: int)
    ensures CallbackId(CallbackData(prefix, id)) == Some(id)
  {
    var digits := IntToString(id);
    assert CallbackData(prefix, id) == prefix + ['_'] + digits;
    LastSegmentAfter(prefix, '_', digits);
    IntToStringRoundTrip(id);
  }

  /** The cancel button never matches a handler that waits for `<prefix>_…`. */
  lemma CancelMatchesNoPrefix(prefix: string)
    ensures !StartsWith(CancelCallback, prefix + "_")
  {
    if |prefix| < |CancelCallback| {
      assert CancelCallback[|prefix|] != '_';
      assert (prefix + "_")[|prefix|] == '_';
    }
  }

  /** `kb` offers each group in order by name under `prefix`, then cancel. */
  predicate OffersGroups(kb: seq<Button>, groups: seq<Group>, prefix: string) {
    && |kb| == |groups| + 1
    && (forall i :: 0 <= i < |groups| ==> kb[i] == Button(groups[i].name, CallbackData(prefix, groups[i].id)))
    && kb[|groups|] == Button(CancelLabel, CancelCallback)
  }

  /** `kb` offers each user in order by full name under `action`, then cancel. */
  predicate OffersUsers(kb: seq<Button>, users: seq<User>, action: string) {
    && |kb| == |users| + 1
    && (forall i :: 0 <= i < |users| ==> kb[i] == Button(users[i].fullName, CallbackData(action, users[i].id)))
    && kb[|users|] == Button(CancelLabel, CancelCallback)
  }

  /** `get_groups_keyboard`: one button per group, in order, showing its name and
      carrying its id under `prefix`, then one cancel button. */
  method GroupsKeyboard(groups: seq<Group>, prefix: string := "group") returns (kb: seq<Button>)
    ensures OffersGroups(kb, groups, prefix)
    ensures forall i :: 0 <= i < |groups| ==> CallbackId(kb[i].callback) == Some(groups[i].id)
  {
    kb := [];
    for i := 0 to |groups|
      invariant |kb| == i
      invariant forall k :: 0 <= k < i ==> kb[k] == Button(groups[k].name, CallbackData(prefix, groups[k].id))
    {
      kb := kb + [Button(groups[i].name, CallbackData(prefix, groups[i].id))];
    }
    kb := kb + [Button(CancelLabel, CancelCallback)];
    GroupIdsReadBack(kb, groups, prefix);
  }

  /** Every group button's callback is read back as that group's id. */
  lemma GroupIdsReadBack(kb: seq<Button>, groups: seq<Group>, prefix: string)
    requires OffersGroups(kb, groups, prefix)
    ensures forall i :: 0 <= i < |groups| ==> CallbackId(kb[i].callback) == Some(groups[i].id)
  {
    forall i | 0 <= i < |groups| ensures CallbackId(kb[i].callback) == Some(groups[i].id) {
      CallbackRoundTrip(prefix, groups[i].id);
    }
  }

  /** `get_users_keyboard`: one button per user, in order, showing the full name (the row
      always has the `full_name` key, so the `@username` fallback is never taken) and
      carrying the user id under `action`, then one cancel button. */
  method UsersKeyboard(users: seq<User>, action: string) returns (kb: seq<Button>)
    ensures OffersUsers(kb, users, action)
    ensures forall i :: 0 <= i < |users| ==> CallbackId(kb[i].callback) == Some(users[i].id)
  {
    kb := [];
    for i := 0 to |users|
      invariant |kb| == i
      invariant forall k :: 0 <= k < i ==> kb[k] == Button(users[k].fullName, CallbackData(action, users[k].id))
    {
      kb := kb + [Button(users[i].fullName, CallbackData(action, users[i].id))];
    }
    kb := kb + [Button(CancelLabel, CancelCallback)];
    UserIdsReadBack(kb, users, action);
  }

  /** Every user button's callback is read back as that user's id. */
  lemma UserIdsReadBack(kb: seq<Button>, users: seq<User>, action: string)
    requires OffersUsers(kb, users, action)
    ensures forall i :: 0 <= i < |users| ==> CallbackId(kb[i].callback) == Some(users[i].id)
  {
    forall i | 0 <= i < |users| ensures CallbackId(kb[i].callback) == Some(users[i].id) {
      CallbackRoundTrip(action, users[i].id);
    }
  }

  // ------------------------------------------------------------ closed input sets

  const WeekdayLabels: seq<string> :=
    ["Понедельник", "Вторник", "Среда", "Четверг", "Пятница", "Суббота"]

  /** `get_days_keyboard`: the six weekdays, then cancel. Each weekday label is read back
      by `get_day_number` as its own weekday; cancel is read as no day. */
  method DaysKeyboard() returns (labels: seq<string>)
    ensures |labels| == 7 && labels[6] == CancelLabel
    ensures forall k :: 0 <= k < 6 ==> labels[k] == WeekdayLabels[k] && DayNumber(labels[k]) == k + 1
    ensures DayNumber(CancelLabel) == 0
  {
    DaysAccepted();
    labels := [];
    for k := 0 to 6
      invariant labels == WeekdayLabels[..k]
    {
      labels := labels + [WeekdayLabels[k]];
    }
    labels := labels + [CancelLabel];
  }

  /** The weekday labels of the keyboard and the keys of `get_day_number` are the same
      names up to case. */
  lemma DaysAccepted()
    ensures forall k :: 0 <= k < 6 ==> DayNumber(WeekdayLabels[k]) == k + 1
    ensures DayNumber(CancelLabel) == 0
  {
    forall k | 0 <= k < 6 ensures DayNumber(WeekdayLabels[k]) == k + 1 {
      assert WeekdayLabels[k] == DayName(k + 1);
      DayNameNumberInverse(k + 1);
    }
    assert Lower(CancelLabel) == "❌ отмена";
  }

  /** `get_lesson_numbers_keyboard`: "1" to "8", then cancel; `int()` reads each number
      label as its lesson and rejects cancel. */
  method LessonNumbersKeyboard() returns (labels: seq<string>)
    ensures |labels| == 9 && labels[8] == CancelLabel
    ensures forall k :: 0 <= k < 8 ==> labels[k] == IntToString(k + 1) && ParseInt(labels[k]) == Some(k + 1)
    ensures ParseInt(CancelLabel) == None
  {
    labels := [];
    for i := 1 to 9
      invariant |labels| == i - 1
      invariant forall k :: 0 <= k < i - 1 ==> labels[k] == IntToString(k + 1)
    {
      labels := labels + [IntToString(i)];
    }
    labels := labels + [CancelLabel];
    forall k | 0 <= k < 8 ensures ParseInt(labels[k]) == Some(k + 1) {
      IntToStringRoundTrip(k + 1);
    }
    CancelIsNoNumber();
  }

  lemma CancelIsNoNumber()
    ensures ParseInt(CancelLabel) == None
  {
    NotANumber(CancelLabel);
  }

  /** `get_grades_keyboard`: "2" to "5", then cancel; each grade label is read by `int()`
      as its grade. */
  method GradesKeyboard() returns (labels: seq<string>)
    ensures |labels| == 5 && labels[4] == CancelLabel
    ensures forall k :: 0 <= k < 4 ==> labels[k] == IntToString(k + 2) && ParseInt(labels[k]) == Some(k + 2)
    ensures ParseInt(CancelLabel) == None
  {
    var grades := ["2", "3", "4", "5"];
    labels := [];
    for k := 0 to 4
      invariant labels == grades[..k]
    {
      labels := labels + [grades[k]];
    }
    labels := labels + [CancelLabel];
    GradeLabels();
    forall k | 0 <= k < 4 ensures ParseInt(labels[k]) == Some(k + 2) {
      IntToStringRoundTrip(k + 2);
    }
    CancelIsNoNumber();
  }

  /** The grade labels are the decimal texts of 2 to 5. */
  lemma GradeLabels()
    ensures forall k :: 0 <= k < 4 ==> ["2", "3", "4", "5"][k] == IntToString(k + 2)
  {
    assert IntToString(2) == "2" && IntToString(3) == "3";
    assert IntToString(4) == "4" && IntToString(5) == "5";
  }

  // ------------------------------------------------------------ admin actions

  function Callbacks(kb: seq<Button>): (r: seq<string>)
    ensures |r| == |kb| && forall i :: 0 <= i < |kb| ==> r[i] == kb[i].callback
  {
    seq(|kb|, i requires 0 <= i < |kb| => kb[i].callback)
  }

  /** `get_action_keyboard`: add to group, remove from group, the one role change that
      applies (to student for a teacher, to teacher otherwise), cancel. */
  method ActionKeyboard(isTeacher: bool := false) returns (kb: seq<Button>)
    ensures |kb| == 4
    ensures Callbacks(kb)[0] == "add_to_group" && Callbacks(kb)[1] == "remove_from_group"
    ensures Callbacks(kb)[3] == CancelCallback
    ensures "set_student_role" in Callbacks(kb) <==> isTeacher
    ensures "set_teacher_role" in Callbacks(kb) <==> !isTeacher
  {
    kb := [Button("➕ Добавить в группу", "add_to_group")];
    kb := kb + [Button("➖ Удалить из группы", "remove_from_group")];
    if !isTeacher {
      kb := kb + [Button("👨‍🏫 Назначить учителем", "set_teacher_role")];
    } else {
      kb := kb + [Button("👨‍🎓 Назначить студентом", "set_student_role")];
    }
    kb := kb + [Button(CancelLabel, CancelCallback)];
    assert Callbacks(kb) == [kb[0].callback, kb[1].callback, kb[2].callback, kb[3].callback];
  }
}
