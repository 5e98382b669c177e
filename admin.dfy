/** bot_clge/handlers/admin.py: the admin menus, group creation, the broadcast, granting
    admin rights, and the callbacks that act on a chosen user (add to a group, remove from
    it, change role). The callbacks carry no role or state filter: any user who sends the
    callback data runs them. */
module AdminHandlers {
  import opened Wrappers
  import opened Text
  import opened Seqs
  import opened Tables
  import opened Store
  import opened Keyboards
  import opened Conversation

  // ------------------------------------------------------------ user scans

  /** The role order `send_broadcast` walks, and the one `add_admin_process` searches. */
  const BroadcastRoles: seq<string> := ["admin", "teacher", "student"]
  const AdminSearchRoles: seq<string> := ["student", "teacher", "admin"]

  /** `get_users_by_role` for each role in turn, the results concatenated. */
  function UsersOfRoles(us: seq<User>, roles: seq<string>): (r: seq<User>)
    ensures forall u :: u in r <==> u in us && u.role in roles
  {
    if roles == [] then []
    else
      assert roles == roles[..|roles| - 1] + [roles[|roles| - 1]];
      UsersOfRoles(us, roles[..|roles| - 1]) + UsersWithRole(us, roles[|roles| - 1])
  }

  /** A table keyed by `user_id` holds each row once. */
  lemma {:induction false} KeyOrderedOnce(us: seq<User>)
    requires KeyOrdered(us)
    ensures forall u :: multiset(us)[u] == if u in us then 1 else 0
  {
    if us != [] {
      assert us == [us[0]] + us[1..];
      KeyOrderedOnce(us[1..]);
      assert us[0] !in us[1..];
    }
  }

  /** With distinct roles, the scan meets every user of those roles exactly once and no
      other user. */
  lemma {:induction false} UsersOfRolesOnce(us: seq<User>, roles: seq<string>)
    requires KeyOrdered(us)
    requires forall i, j :: 0 <= i < j < |roles| ==> roles[i] != roles[j]
    ensures forall u :: multiset(UsersOfRoles(us, roles))[u] == if u in us && u.role in roles then 1 else 0
  {
    if roles != [] {
      var init, last := roles[..|roles| - 1], roles[|roles| - 1];
      assert roles == init + [last];
      UsersOfRolesOnce(us, init);
      UsersWithRoleCount(us, last);
      KeyOrderedOnce(us);
      assert last !in init;
    }
  }

  /** `send_broadcast` reaches every admin, teacher and student once, and nobody else. */
  lemma BroadcastOncePerUser(us: seq<User>)
    requires KeyOrdered(us)
    ensures forall u :: multiset(UsersOfRoles(us, BroadcastRoles))[u] ==
                          if u in us && u.role in {"admin", "teacher", "student"} then 1 else 0
  {
    UsersOfRolesOnce(us, BroadcastRoles);
  }

  /** The loop that fills `all_users` role by role. */
  method CollectUsers(db: Database, roles: seq<string>) returns (all: seq<User>)
    ensures all == UsersOfRoles(db.users, roles)
  {
    all := [];
    for i := 0 to |roles|
      invariant all == UsersOfRoles(db.users, roles[..i])
    {
      assert roles[..i + 1][..i] == roles[..i];
      all := all + db.GetUsersByRole(roles[i]);
    }
    assert roles[..|roles|] == roles;
  }

  /** The users a send to whom succeeds; `reachable` stands for the Telegram outcome. */
  function Reaches(reachable: set<int>): User -> bool {
    (u: User) => u.id in reachable
  }

  /** The delivery loop of `send_broadcast`: one attempt per recipient, in order, each
      counted as sent or failed. */
  method CountDeliveries(recipients: seq<User>, reachable: set<int>) returns (sent: nat, failed: nat)
    ensures sent == |Filter(recipients, Reaches(reachable))|
    ensures sent + failed == |recipients|
  {
    sent, failed := 0, 0;
    ghost var done: seq<User> := [];
    for i := 0 to |recipients|
      invariant done == recipients[..i]
      invariant sent == |Filter(done, Reaches(reachable))|
      invariant sent + failed == i
    {
      FilterSnoc(done, recipients[i], Reaches(reachable));
      if recipients[i].id in reachable {
        sent := sent + 1;
      } else {
        failed := failed + 1;
      }
      done := done + [recipients[i]];
    }
    assert done == recipients;
  }

  /** The users whose stored username is exactly `name` (a NULL username matches nothing). */
  function Named(name: string): User -> bool {
    (u: User) => u.username == Some(name)
  }

  /** The search loop of `add_admin_process`: the first user with that username. */
  method FindByUsername(users: seq<User>, name: string) returns (found: Option<User>)
    ensures found == FindFirst(users, Named(name))
  {
    var i := 0;
    while i < |users|
      invariant 0 <= i <= |users|
      invariant forall j :: 0 <= j < i ==> users[j].username != Some(name)
    {
      if users[i].username == Some(name) {
        return Some(users[i]);
      }
      i := i + 1;
    }
    return None;
  }

  /** `message.text.strip().replace("@", "")`. */
  function AdminName(text: string): string {
    Filter(Strip(text), (c: char) => c != '@')
  }

  // ------------------------------------------------------------ menus

  /** `manage_teachers`: an admin is offered every teacher. */
  method ManageTeachers(db: Database, sender: int) returns (r: Reply)
    ensures !HasRole(db.GetUser(sender), "admin") ==> r == NoAccess
    ensures HasRole(db.GetUser(sender), "admin") && db.GetUsersByRole("teacher") == [] ==> r == NothingToList
    ensures HasRole(db.GetUser(sender), "admin") && db.GetUsersByRole("teacher") != [] ==>
              r.Choose? && OffersUsers(r.buttons, db.GetUsersByRole("teacher"), "teacher_action")
  {
    var user := db.GetUser(sender);
    if user.None? || user.value.role != "admin" {
      return NoAccess;
    }
    var teachers := db.GetUsersByRole("teacher");
    if |teachers| == 0 {
      return NothingToList;
    }
    var kb := UsersKeyboard(teachers, "teacher_action");
    r := Choose(kb);
  }

  /** `manage_students`: an admin is offered every student. */
  method ManageStudents(db: Database, sender: int) returns (r: Reply)
    ensures !HasRole(db.GetUser(sender), "admin") ==> r == NoAccess
    ensures HasRole(db.GetUser(sender), "admin") && db.GetUsersByRole("student") == [] ==> r == NothingToList
    ensures HasRole(db.GetUser(sender), "admin") && db.GetUsersByRole("student") != [] ==>
              r.Choose? && OffersUsers(r.buttons, db.GetUsersByRole("student"), "student_action")
  {
    var user := db.GetUser(sender);
    if user.None? || user.value.role != "admin" {
      return NoAccess;
    }
    var students := db.GetUsersByRole("student");
    if |students| == 0 {
      return NothingToList;
    }
    var kb := UsersKeyboard(students, "student_action");
    r := Choose(kb);
  }

  // ------------------------------------------------------------ groups

  /** `manage_groups` as written: the handler takes no `db` parameter and the module has no
      `db` name, so its first line raises `NameError` for every sender; no state is set, so
      `create_group` can never run. */
  method ManageGroups(ctx: FsmContext, sender: int) returns (r: Reply)
    ensures r == Crash
  {
    r := Crash;
  }

  /** `manage_groups` as evidently intended: the admin is asked for a group name and the
      conversation waits for it. */
  method ManageGroupsIntended(db: Database, ctx: FsmContext, sender: int) returns (r: Reply)
    modifies ctx
    ensures !HasRole(db.GetUser(sender), "admin") ==> r == NoAccess && unchanged(ctx)
    ensures HasRole(db.GetUser(sender), "admin") ==>
              && r == Prompt && ctx.state == Some(Admin(WaitingForGroupName))
              && ctx.data == old(ctx.data)
  {
    var user := db.GetUser(sender);
    if user.None? || user.value.role != "admin" {
      return NoAccess;
    }
    ctx.SetState(Admin(WaitingForGroupName));
    r := Prompt;
  }

  /** `create_group`: the stripped name; an existing name is refused and the state kept;
      otherwise the group is created under the next id and the state cleared. */
  method CreateGroup(db: Database, ctx: FsmContext, text: string) returns (r: Reply)
    requires db.Valid()
    modifies db, ctx
    ensures db.Valid()
    ensures !(old(ctx.state) == Some(Admin(WaitingForGroupName)) && text != CancelLabel) ==>
              r == NotHandled && unchanged(db) && unchanged(ctx)
    ensures old(ctx.state) == Some(Admin(WaitingForGroupName)) && text != CancelLabel ==>
              if old(HasGroupNamed(db.groups, Strip(text))) then
                r == AlreadyExists && unchanged(db) && unchanged(ctx)
              else
                && r == Done && ctx.state == None && ctx.data == NoData
                && db.groupSeq == old(db.groupSeq) + 1
                && db.groups == old(db.groups) + [Group(db.groupSeq, Strip(text))]
                && db.Snap() == old(db.Snap()).(groups := db.groups, groupSeq := db.groupSeq)
  {
    if ctx.state != Some(Admin(WaitingForGroupName)) || text == CancelLabel {
      return NotHandled;
    }
    var name := Strip(text);
    var existing := db.GetGroupByName(name);
    if existing.Some? {
      return AlreadyExists;
    }
    var res := db.CreateGroup(name);
    r := if res.Ok? then Done else Failed;
    ctx.Clear();
  }

  // ------------------------------------------------------------ broadcast

  /** `start_broadcast`. */
  method StartBroadcast(db: Database, ctx: FsmContext, sender: int) returns (r: Reply)
    modifies ctx
    ensures !HasRole(db.GetUser(sender), "admin") ==> r == NoAccess && unchanged(ctx)
    ensures HasRole(db.GetUser(sender), "admin") ==>
              && r == Prompt && ctx.state == Some(Admin(WaitingForBroadcastMessage))
              && ctx.data == old(ctx.data)
  {
    var user := db.GetUser(sender);
    if user.None? || user.value.role != "admin" {
      return NoAccess;
    }
    ctx.SetState(Admin(WaitingForBroadcastMessage));
    r := Prompt;
  }

  /** `send_broadcast`: one send per admin, teacher and student (in that role order), the
      two counters reported, and the state cleared. The store is not touched. */
  method SendBroadcast(db: Database, ctx: FsmContext, text: string, reachable: set<int>) returns (r: Reply)
    modifies ctx
    ensures !(old(ctx.state) == Some(Admin(WaitingForBroadcastMessage)) && text != CancelLabel) ==>
              r == NotHandled && unchanged(ctx)
    ensures old(ctx.state) == Some(Admin(WaitingForBroadcastMessage)) && text != CancelLabel ==>
              var recipients := UsersOfRoles(db.users, BroadcastRoles);
              && r.BroadcastDone?
              && r.sent == |Filter(recipients, Reaches(reachable))|
              && r.sent + r.failed == |recipients|
              && ctx.state == None && ctx.data == NoData
  {
    if ctx.state != Some(Admin(WaitingForBroadcastMessage)) || text == CancelLabel {
      return NotHandled;
    }
    var recipients := CollectUsers(db, BroadcastRoles);
    var sent, failed := CountDeliveries(recipients, reachable);
    r := BroadcastDone(sent, failed);
    ctx.Clear();
  }

  // ------------------------------------------------------------ new admin

  /** `add_admin_start`. */
  method AddAdminStart(db: Database, ctx: FsmContext, sender: int) returns (r: Reply)
    modifies ctx
    ensures !HasRole(db.GetUser(sender), "admin") ==> r == NoAccess && unchanged(ctx)
    ensures HasRole(db.GetUser(sender), "admin") ==>
              && r == Prompt && ctx.state == Some(Admin(WaitingForNewAdminUsername))
              && ctx.data == old(ctx.data)
  {
    var user := db.GetUser(sender);
    if user.None? || user.value.role != "admin" {
      return NoAccess;
    }
    ctx.SetState(Admin(WaitingForNewAdminUsername));
    r := Prompt;
  }

  /** `add_admin_process`: the first student, teacher or admin (in that order) with the
      typed username, '@' and surrounding blanks dropped. Not found: refused, state kept.
      Already an admin: nothing written, state cleared. Otherwise that user's role becomes
      admin, nobody else changes, and the state is cleared. */
  method AddAdminProcess(db: Database, ctx: FsmContext, text: string) returns (r: Reply)
    requires db.Valid()
    modifies db, ctx
    ensures db.Valid()
    ensures !(old(ctx.state) == Some(Admin(WaitingForNewAdminUsername)) && text != CancelLabel) ==>
              r == NotHandled && unchanged(db) && unchanged(ctx)
    ensures old(ctx.state) == Some(Admin(WaitingForNewAdminUsername)) && text != CancelLabel ==>
              match FindFirst(UsersOfRoles(old(db.users), AdminSearchRoles), Named(AdminName(text)))
              case None => r == UserNotFound && unchanged(db) && unchanged(ctx)
              case Some(u) =>
                && ctx.state == None && ctx.data == NoData
                && old(db.GetUser(u.id)) == Some(u)
                && if u.role == "admin" then r == AlreadyAdmin && unchanged(db)
                   else
                     && r == Done
                     && db.GetUser(u.id) == Some(u.(role := "admin"))
                     && (forall x :: x != u.id ==> db.GetUser(x) == old(db.GetUser(x)))
                     && db.Snap() == old(db.Snap()).(users := db.users)
  {
    if ctx.state != Some(Admin(WaitingForNewAdminUsername)) || text == CancelLabel {
      return NotHandled;
    }
    var name := AdminName(text);
    var all := CollectUsers(db, AdminSearchRoles);
    var target := FindByUsername(all, name);
    if target.None? {
      return UserNotFound;
    }
    var u := target.value;
    FindUserUnique(db.users, u);
    if u.role == "admin" {
      r := AlreadyAdmin;
    } else {
      db.UpdateUserRole(u.id, "admin");
      r := Done;
    }
    ctx.Clear();
  }

  // ------------------------------------------------------------ acting on a chosen user

  /** `teacher_action`: remembers the chosen user and offers the teacher's actions; the
      state is not changed. */
  method TeacherAction(ctx: FsmContext, data: string) returns (r: Reply)
    modifies ctx
    ensures !StartsWith(data, "teacher_action_") ==> r == NotHandled && unchanged(ctx)
    ensures StartsWith(data, "teacher_action_") && CallbackId(data).None? ==> r == Crash && unchanged(ctx)
    ensures StartsWith(data, "teacher_action_") && CallbackId(data).Some? ==>
              && ctx.state == old(ctx.state)
              && ctx.data == old(ctx.data).(targetUserId := CallbackId(data))
              && r.Choose? && |r.buttons| == 4
              && "set_student_role" in Callbacks(r.buttons) && "set_teacher_role" !in Callbacks(r.buttons)
  {
    if !StartsWith(data, "teacher_action_") {
      return NotHandled;
    }
    var id := CallbackId(data);
    if id.None? {
      return Crash;
    }
    ctx.data := ctx.data.(targetUserId := id);
    var kb := ActionKeyboard(isTeacher := true);
    r := Choose(kb);
  }

  /** `student_action`: the same for a student, who is offered the teacher role. */
  method StudentAction(ctx: FsmContext, data: string) returns (r: Reply)
    modifies ctx
    ensures !StartsWith(data, "student_action_") ==> r == NotHandled && unchanged(ctx)
    ensures StartsWith(data, "student_action_") && CallbackId(data).None? ==> r == Crash && unchanged(ctx)
    ensures StartsWith(data, "student_action_") && CallbackId(data).Some? ==>
              && ctx.state == old(ctx.state)
              && ctx.data == old(ctx.data).(targetUserId := CallbackId(data))
              && r.Choose? && |r.buttons| == 4
              && "set_teacher_role" in Callbacks(r.buttons) && "set_student_role" !in Callbacks(r.buttons)
  {
    if !StartsWith(data, "student_action_") {
      return NotHandled;
    }
    var id := CallbackId(data);
    if id.None? {
      return Crash;
    }
    ctx.data := ctx.data.(targetUserId := id);
    var kb := ActionKeyboard();
    r := Choose(kb);
  }

  /** `add_to_group_start`: every group offered under "group_add". */
  method AddToGroupStart(db: Database, data: string) returns (r: Reply)
    ensures data != "add_to_group" ==> r == NotHandled
    ensures data == "add_to_group" && db.GetAllGroups() == [] ==> r == NothingToList
    ensures data == "add_to_group" && db.GetAllGroups() != [] ==>
              r.Choose? && OffersGroups(r.buttons, db.GetAllGroups(), "group_add")
  {
    if data != "add_to_group" {
      return NotHandled;
    }
    var groups := db.GetAllGroups();
    if |groups| == 0 {
      return NothingToList;
    }
    var kb := GroupsKeyboard(groups, "group_add");
    r := Choose(kb);
  }

  /** `remove_from_group_process`: without a remembered user nothing happens; otherwise
      that user's group becomes NULL and the state is cleared. */
  method RemoveFromGroup(db: Database, ctx: FsmContext, data: string) returns (r: Reply)
    requires db.Valid()
    modifies db, ctx
    ensures db.Valid()
    ensures data != "remove_from_group" ==> r == NotHandled && unchanged(db) && unchanged(ctx)
    ensures data == "remove_from_group" ==>
              match TargetUser(old(ctx.data))
              case None => r == NoTargetUser && unchanged(db) && unchanged(ctx)
              case Some(t) =>
                && r == Done && ctx.state == None && ctx.data == NoData
                && db.GetUser(t) == ApplyFound(old(db.GetUser(t)), GroupColumn(None))
                && (forall x :: x != t ==> db.GetUser(x) == old(db.GetUser(x)))
                && db.Snap() == old(db.Snap()).(users := db.users)
  {
    if data != "remove_from_group" {
      return NotHandled;
    }
    var t := TargetUser(ctx.data);
    if t.None? {
      return NoTargetUser;
    }
    db.DeleteUserFromGroup(t.value);
    r := Done;
    ctx.Clear();
  }

  /** `add_to_group_process`: the group id is read first (a bad tail raises before
      anything changes); without a remembered user nothing happens; otherwise that user's
      group is set, with no check that the group exists, and the state is cleared. */
  method AddToGroupProcess(db: Database, ctx: FsmContext, data: string) returns (r: Reply)
    requires db.Valid()
    modifies db, ctx
    ensures db.Valid()
    ensures !StartsWith(data, "group_add_") ==> r == NotHandled && unchanged(db) && unchanged(ctx)
    ensures StartsWith(data, "group_add_") && CallbackId(data).None? ==>
              r == Crash && unchanged(db) && unchanged(ctx)
    ensures StartsWith(data, "group_add_") && CallbackId(data).Some? ==>
              match TargetUser(old(ctx.data))
              case None => r == NoTargetUser && unchanged(db) && unchanged(ctx)
              case Some(t) =>
                && r == Done && ctx.state == None && ctx.data == NoData
                && db.GetUser(t) == ApplyFound(old(db.GetUser(t)), GroupColumn(CallbackId(data)))
                && (forall x :: x != t ==> db.GetUser(x) == old(db.GetUser(x)))
                && db.Snap() == old(db.Snap()).(users := db.users)
  {
    if !StartsWith(data, "group_add_") {
      return NotHandled;
    }
    var g := CallbackId(data);
    if g.None? {
      return Crash;
    }
    var t := TargetUser(ctx.data);
    if t.None? {
      return NoTargetUser;
    }
    db.UpdateUserGroup(t.value, g);
    r := Done;
    ctx.Clear();
  }

  /** `set_teacher_role` (`role` "teacher", data "set_teacher_role") and `set_student_role`
      (`role` "student", data "set_student_role"): the remembered user's role is set and
      the state cleared; the user's notification may fail unnoticed. */
  method SetRole(db: Database, ctx: FsmContext, data: string, role: string) returns (r: Reply)
    requires db.Valid()
    modifies db, ctx
    ensures db.Valid()
    ensures data != "set_" + role + "_role" ==> r == NotHandled && unchanged(db) && unchanged(ctx)
    ensures data == "set_" + role + "_role" ==>
              match TargetUser(old(ctx.data))
              case None => r == NoTargetUser && unchanged(db) && unchanged(ctx)
              case Some(t) =>
                && r == Done && ctx.state == None && ctx.data == NoData
                && db.GetUser(t) == ApplyFound(old(db.GetUser(t)), RoleColumn(role))
                && (forall x :: x != t ==> db.GetUser(x) == old(db.GetUser(x)))
                && db.Snap() == old(db.Snap()).(users := db.users)
  {
    if data != "set_" + role + "_role" {
      return NotHandled;
    }
    var t := TargetUser(ctx.data);
    if t.None? {
      return NoTargetUser;
    }
    db.UpdateUserRole(t.value, role);
    r := Done;
    ctx.Clear();
  }

  method SetTeacherRole(db: Database, ctx: FsmContext, data: string) returns (r: Reply)
    requires db.Valid()
    modifies db, ctx
    ensures db.Valid()
    ensures data != "set_teacher_role" ==> r == NotHandled && unchanged(db) && unchanged(ctx)
    ensures data == "set_teacher_role" && TargetUser(old(ctx.data)).Some? ==>
              var t := TargetUser(old(ctx.data)).value;
              && r == Done && ctx.state == None && ctx.data == NoData
              && db.GetUser(t) == ApplyFound(old(db.GetUser(t)), RoleColumn("teacher"))
              && (forall x :: x != t ==> db.GetUser(x) == old(db.GetUser(x)))
              && db.Snap() == old(db.Snap()).(users := db.users)
    ensures data == "set_teacher_role" && TargetUser(old(ctx.data)).None? ==>
              r == NoTargetUser && unchanged(db) && unchanged(ctx)
  {
    RoleCallbackNames();
    r := SetRole(db, ctx, data, "teacher");
  }

  method SetStudentRole(db: Database, ctx: FsmContext, data: string) returns (r: Reply)
    requires db.Valid()
    modifies db, ctx
    ensures db.Valid()
    ensures data != "set_student_role" ==> r == NotHandled && unchanged(db) && unchanged(ctx)
    ensures data == "set_student_role" && TargetUser(old(ctx.data)).Some? ==>
              var t := TargetUser(old(ctx.data)).value;
              && r == Done && ctx.state == None && ctx.data == NoData
              && db.GetUser(t) == ApplyFound(old(db.GetUser(t)), RoleColumn("student"))
              && (forall x :: x != t ==> db.GetUser(x) == old(db.GetUser(x)))
              && db.Snap() == old(db.Snap()).(users := db.users)
    ensures data == "set_student_role" && TargetUser(old(ctx.data)).None? ==>
              r == NoTargetUser && unchanged(db) && unchanged(ctx)
  {
    RoleCallbackNames();
    r := SetRole(db, ctx, data, "student");
  }

  /** The callback data each role setter answers to. */
  lemma RoleCallbackNames()
    ensures "set_" + "teacher" + "_role" == "set_teacher_role"
    ensures "set_" + "student" + "_role" == "set_student_role"
  {
  }

  // ------------------------------------------------------------ cancel

  /** `cancel_action`: the inline cancel button deletes the keyboard's message; unlike the
      text cancel it leaves the conversation state as it is. */
  method CancelAction(data: string) returns (r: Reply)
    ensures r == MessageDeleted <==> data == CancelCallback
    ensures r != MessageDeleted ==> r == NotHandled
  {
    r := if data == CancelCallback then MessageDeleted else NotHandled;
  }

  /** `cancel_text`: from any state, clears it and shows the sender's menu (the student
      menu when the sender has no row). */
  method CancelText(db: Database, ctx: FsmContext, sender: int, text: string) returns (r: Reply)
    modifies ctx
    ensures text != CancelLabel ==> r == NotHandled && unchanged(ctx)
    ensures text == CancelLabel ==>
              && ctx.state == None && ctx.data == NoData
              && r == Menu(MenuFor(if db.GetUser(sender).Some? then db.GetUser(sender).value.role else "student"))
  {
    if text != CancelLabel {
      return NotHandled;
    }
    var user := db.GetUser(sender);
    var role := if user.Some? then user.value.role else "student";
    var labels := MainMenu(role);
    ctx.Clear();
    r := Menu(labels);
  }
}
