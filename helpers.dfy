/** bot_clge/utils/helpers.py: the weekday tables and the two text formatters. The
    formatters are modelled by the structure of the text they produce (which lines, in
    which order), not by its characters. */
module Helpers {
  import opened Wrappers
  import opened Seqs
  import opened Text
  import opened Tables

  const UnknownDay := "Неизвестно"

  /** `get_day_number`: the weekday, 1 for Monday to 6 for Saturday, whose lower-case
      Russian name is `name` lower-cased; 0 for any other text. */
  function DayNumber(name: string): (n: int)
    ensures 0 <= n <= 6
  {
    var days := map["понедельник" := 1, "вторник" := 2, "среда" := 3,
                     "четверг" := 4, "пятница" := 5, "суббота" := 6];
    var key := Lower(name);
    if key in days then days[key] else 0
  }

  /** `get_day_name`: the capitalised Russian name of weekday `n`, or "Неизвестно"
      ("unknown") for a number outside 1..6. */
  function DayName(n: int): (r: string)
    ensures r == UnknownDay <==> !(1 <= n <= 6)
  {
    var days := map[1 := "Понедельник", 2 := "Вторник", 3 := "Среда",
                     4 := "Четверг", 5 := "Пятница", 6 := "Суббота"];
    if n in days then days[n] else UnknownDay
  }

  /** The six names `get_day_name` writes, lower-cased, are the six keys of
      `get_day_number`'s table. */
  lemma DayNamesLower()
    ensures Lower(DayName(1)) == "понедельник" && Lower(DayName(2)) == "вторник"
    ensures Lower(DayName(3)) == "среда" && Lower(DayName(4)) == "четверг"
    ensures Lower(DayName(5)) == "пятница" && Lower(DayName(6)) == "суббота"
  {
    assert Lower("Понедельник") == "понедельник";
    assert Lower("Вторник") == "вторник";
    assert Lower("Среда") == "среда";
    assert Lower("Четверг") == "четверг";
    assert Lower("Пятница") == "пятница";
    assert Lower("Суббота") == "суббота";
  }

  /** Reading back a name the bot writes gives the weekday it was written for. */
  lemma DayNameNumberInverse(n: int)
    requires 1 <= n <= 6
    ensures DayNumber(DayName(n)) == n
    ensures DayNumber(Lower(DayName(n))) == n
  {
    DayNamesLower();
    LowerIdempotent(DayName(n));
  }

  /** Every text `get_day_number` accepts is, up to case, the name of the weekday it
      returns; every other text, including "Неизвестно", gives 0. */
  lemma DayNumberNameInverse(name: string)
    ensures DayNumber(name) != 0 ==> Lower(DayName(DayNumber(name))) == Lower(name)
    ensures DayNumber(name) == 0 <==> forall k :: 1 <= k <= 6 ==> Lower(DayName(k)) != Lower(name)
  {
    DayNamesLower();
    var n := DayNumber(name);
    if n == 0 {
      forall k | 1 <= k <= 6 ensures Lower(DayName(k)) != Lower(name) {
        DayNameNumberInverse(k);
      }
    }
  }

  // ------------------------------------------------------------ format_schedule

  /** One line of the schedule text: "📅 <day>:", "<lesson>. <subject> - <teacher>" (the
      teacher name as the join produced it, so a missing teacher prints as `None`), or
      the empty line between two days. */
  datatype ScheduleLine =
    | DayHeader(day: string)
    | LessonLine(lesson: int, subject: string, teacher: Option<string>)
    | BlankLine

  /** "Расписание пока не добавлено." ("no schedule yet") or the lines joined by newlines. */
  datatype ScheduleText = NoSchedule | ScheduleLines(lines: seq<ScheduleLine>)

  function DayOf(e: ScheduleEntry): string {
    DayName(e.row.day)
  }

  function LessonOf(e: ScheduleEntry): ScheduleLine {
    LessonLine(e.row.lesson, e.row.subject, e.teacherName)
  }

  /** What comes before the lesson line of an item on `day` that follows `done`. */
  function BlockBreak(done: seq<ScheduleEntry>, day: string): seq<ScheduleLine> {
    if done == [] then [DayHeader(day)]
    else if DayOf(done[|done| - 1]) != day then [BlankLine, DayHeader(day)]
    else []
  }

  /** The lines of the schedule text for `items`, one item at a time. */
  function ScheduleLinesOf(items: seq<ScheduleEntry>): seq<ScheduleLine> {
    if items == [] then []
    else
      var done := items[..|items| - 1];
      ScheduleLinesOf(done) + BlockBreak(done, DayOf(items[|items| - 1])) + [LessonOf(items[|items| - 1])]
  }

  /** `format_schedule`: items in the order given, a header whenever the day name changes
      (so two out-of-range day numbers share one "Неизвестно" block), an empty line
      between blocks. */
  method FormatSchedule(items: seq<ScheduleEntry>) returns (t: ScheduleText)
    ensures items == [] <==> t == NoSchedule
    ensures items != [] ==> t == ScheduleLines(ScheduleLinesOf(items))
  {
    if |items| == 0 {
      return NoSchedule;
    }
    var lines: seq<ScheduleLine> := [];
    var current: Option<string> := None;
    ghost var done: seq<ScheduleEntry> := [];
    for i := 0 to |items|
      invariant done == items[..i]
      invariant lines == ScheduleLinesOf(done)
      invariant current == if done == [] then None else Some(DayOf(done[|done| - 1]))
    {
      lines, current := AppendItem(lines, current, done, items[i]);
      assert items[..i + 1] == done + [items[i]];
      done := done + [items[i]];
    }
    assert done == items;
    t := ScheduleLines(lines);
  }

  /** One pass of `format_schedule`'s loop: the header when the day name changes (after
      an empty line unless it is the first), then the lesson line. */
  method AppendItem(lines: seq<ScheduleLine>, current: Option<string>, ghost done: seq<ScheduleEntry>,
                    e: ScheduleEntry)
    returns (lines': seq<ScheduleLine>, current': Option<string>)
    requires lines == ScheduleLinesOf(done)
    requires current == if done == [] then None else Some(DayOf(done[|done| - 1]))
    ensures lines' == ScheduleLinesOf(done + [e])
    ensures current' == Some(DayOf(e))
  {
    var day := DayName(e.row.day);
    lines', current' := lines, current;
    if current' != Some(day) {
      if current'.Some? {
        lines' := lines' + [BlankLine];
      }
      lines' := lines' + [DayHeader(day)];
      current' := Some(day);
    }
    assert lines' == lines + BlockBreak(done, day);
    lines' := lines' + [LessonOf(e)];
    ScheduleSnoc(done, e);
  }

  /** One more item adds its block break and its lesson line. */
  lemma ScheduleSnoc(done: seq<ScheduleEntry>, e: ScheduleEntry)
    ensures ScheduleLinesOf(done + [e]) == ScheduleLinesOf(done) + BlockBreak(done, DayOf(e)) + [LessonOf(e)]
  {
    assert (done + [e])[..|done|] == done;
  }

  /** The lines for a prefix of the items start the lines for all of them. */
  lemma {:induction false} ScheduleLinesPrefix(items: seq<ScheduleEntry>, j: nat)
    requires j <= |items|
    ensures ScheduleLinesOf(items[..j]) <= ScheduleLinesOf(items)
  {
    if j < |items| {
      var done := items[..|items| - 1];
      assert done[..j] == items[..j];
      ScheduleLinesPrefix(done, j);
    } else {
      assert items[..j] == items;
    }
  }

  /** Where the lesson line of item `i` sits in the schedule text. */
  function LessonPos(items: seq<ScheduleEntry>, i: nat): int
    requires i < |items|
  {
    |ScheduleLinesOf(items[..i + 1])| - 1
  }

  lemma ScheduleStep(items: seq<ScheduleEntry>, i: nat)
    requires i < |items|
    ensures ScheduleLinesOf(items[..i + 1])
              == ScheduleLinesOf(items[..i]) + BlockBreak(items[..i], DayOf(items[i])) + [LessonOf(items[i])]
  {
    assert items[..i + 1][..i] == items[..i];
  }

  /** The layout of the schedule text, item by item: the text opens with the first day's
      header and the first lesson; a lesson on the same day as the one before follows it
      directly; a lesson on another day follows an empty line and that day's header; the
      last lesson ends the text. Every line is thereby accounted for. */
  lemma ScheduleLayout(items: seq<ScheduleEntry>, i: nat)
    requires i < |items|
    ensures 0 <= LessonPos(items, i) < |ScheduleLinesOf(items)|
    ensures ScheduleLinesOf(items)[LessonPos(items, i)] == LessonOf(items[i])
    ensures i == 0 ==> LessonPos(items, i) == 1 && ScheduleLinesOf(items)[0] == DayHeader(DayOf(items[0]))
    ensures 0 < i && DayOf(items[i]) == DayOf(items[i - 1]) ==> LessonPos(items, i) == LessonPos(items, i - 1) + 1
    ensures 0 < i && DayOf(items[i]) != DayOf(items[i - 1]) ==>
              && LessonPos(items, i) == LessonPos(items, i - 1) + 3
              && ScheduleLinesOf(items)[LessonPos(items, i) - 2] == BlankLine
              && ScheduleLinesOf(items)[LessonPos(items, i) - 1] == DayHeader(DayOf(items[i]))
    ensures i == |items| - 1 ==> LessonPos(items, i) == |ScheduleLinesOf(items)| - 1
  {
    LessonAt(items, i);
    if i == 0 {
      FirstLesson(items);
    } else {
      NextLesson(items, i);
    }
    if i == |items| - 1 {
      assert items[..i + 1] == items;
    }
  }

  /** The lines up to item `i`, as one step of `ScheduleLinesOf`, start the whole text. */
  lemma LessonAt(items: seq<ScheduleEntry>, i: nat)
    requires i < |items|
    ensures ScheduleLinesOf(items[..i + 1])
              == ScheduleLinesOf(items[..i]) + BlockBreak(items[..i], DayOf(items[i])) + [LessonOf(items[i])]
    ensures ScheduleLinesOf(items[..i + 1]) <= ScheduleLinesOf(items)
    ensures 0 <= LessonPos(items, i) < |ScheduleLinesOf(items)|
    ensures ScheduleLinesOf(items)[LessonPos(items, i)] == LessonOf(items[i])
  {
    ScheduleStep(items, i);
    ScheduleLinesPrefix(items, i + 1);
  }

  lemma FirstLesson(items: seq<ScheduleEntry>)
    requires 0 < |items|
    ensures LessonPos(items, 0) == 1 && ScheduleLinesOf(items)[0] == DayHeader(DayOf(items[0]))
  {
    LessonAt(items, 0);
    var b := ScheduleLinesOf(items[..1]);
    assert items[..0] == [];
    assert b == [DayHeader(DayOf(items[0])), LessonOf(items[0])];
    assert ScheduleLinesOf(items)[0] == b[0];
  }

  lemma NextLesson(items: seq<ScheduleEntry>, i: nat)
    requires 0 < i < |items|
    ensures LessonPos(items, i) < |ScheduleLinesOf(items)|
    ensures DayOf(items[i]) == DayOf(items[i - 1]) ==> LessonPos(items, i) == LessonPos(items, i - 1) + 1
    ensures DayOf(items[i]) != DayOf(items[i - 1]) ==>
              && LessonPos(items, i) == LessonPos(items, i - 1) + 3
              && ScheduleLinesOf(items)[LessonPos(items, i) - 2] == BlankLine
              && ScheduleLinesOf(items)[LessonPos(items, i) - 1] == DayHeader(DayOf(items[i]))
  {
    LessonAt(items, i);
    var lines := ScheduleLinesOf(items);
    var done := items[..i];
    var front := ScheduleLinesOf(done);
    var b := ScheduleLinesOf(items[..i + 1]);
    assert items[..(i - 1) + 1] == done;
    assert LessonPos(items, i - 1) == |front| - 1;
    assert done[|done| - 1] == items[i - 1];
    if DayOf(items[i]) != DayOf(items[i - 1]) {
      assert BlockBreak(done, DayOf(items[i])) == [BlankLine, DayHeader(DayOf(items[i]))];
      assert b == front + [BlankLine, DayHeader(DayOf(items[i])), LessonOf(items[i])];
      assert lines[|b| - 3] == b[|b| - 3];
      assert lines[|b| - 2] == b[|b| - 2];
    } else {
      assert BlockBreak(done, DayOf(items[i])) == [];
    }
  }

  // ------------------------------------------------------------ format_grades

  /** One subject's part of the grades text: "📚 <subject>:", the grades separated by
      commas, and the average. */
  datatype GradeBlock = GradeBlock(subject: string, grades: seq<int>)

  /** "У вас пока нет отметок." ("no grades yet") or the heading followed by the blocks. */
  datatype GradesText = NoGrades | GradeBlocks(blocks: seq<GradeBlock>)

  function Subjects(es: seq<GradeEntry>): (r: seq<string>)
    ensures |r| == |es| && forall i :: 0 <= i < |es| ==> r[i] == es[i].row.subject
  {
    seq(|es|, i requires 0 <= i < |es| => es[i].row.subject)
  }

  /** The grades given in `subject`, in the order of the entries. */
  function GradesFor(es: seq<GradeEntry>, subject: string): seq<int> {
    if es == [] then []
    else
      var last := es[|es| - 1];
      GradesFor(es[..|es| - 1], subject) + (if last.row.subject == subject then [last.row.grade] else [])
  }

  /** One block per distinct subject, in order of first appearance, each with its grades. */
  function BlocksOf(es: seq<GradeEntry>): seq<GradeBlock> {
    var keys := Dedup(Subjects(es));
    seq(|keys|, i requires 0 <= i < |keys| => GradeBlock(keys[i], GradesFor(es, keys[i])))
  }

  /** `format_grades`: the grades grouped in a dictionary keyed by subject, then one block
      per key in insertion order. */
  method FormatGrades(es: seq<GradeEntry>) returns (t: GradesText)
    ensures es == [] <==> t == NoGrades
    ensures es != [] ==> t == GradeBlocks(BlocksOf(es))
  {
    if |es| == 0 {
      return NoGrades;
    }
    var keys, bySubject := GroupBySubject(es);
    var blocks := BlocksInKeyOrder(es, keys, bySubject);
    t := GradeBlocks(blocks);
  }

  /** The second loop of `format_grades`: one block per dictionary key, in key order. */
  method BlocksInKeyOrder(ghost es: seq<GradeEntry>, keys: seq<string>, bySubject: map<string, seq<int>>)
    returns (blocks: seq<GradeBlock>)
    requires keys == Dedup(Subjects(es))
    requires forall k :: k in keys ==> k in bySubject && bySubject[k] == GradesFor(es, k)
    ensures blocks == BlocksOf(es)
  {
    ghost var want := BlocksOf(es);
    blocks := [];
    for j := 0 to |keys|
      invariant blocks == want[..j]
    {
      assert want[..j + 1] == want[..j] + [want[j]];
      blocks := blocks + [GradeBlock(keys[j], bySubject[keys[j]])];
    }
    assert want[..|keys|] == want;
  }

  /** The `subjects` dictionary loop of `format_grades`: its keys in insertion order are
      the distinct subjects, and each maps to that subject's grades. */
  method GroupBySubject(es: seq<GradeEntry>) returns (keys: seq<string>, bySubject: map<string, seq<int>>)
    ensures keys == Dedup(Subjects(es))
    ensures forall i, j :: 0 <= i < j < |keys| ==>
              FirstIndex(Subjects(es), keys[i]) < FirstIndex(Subjects(es), keys[j])
    ensures forall k :: k in bySubject <==> k in keys
    ensures forall k :: k in bySubject ==> bySubject[k] == GradesFor(es, k)
  {
    keys, bySubject := [], map[];
    ghost var done: seq<GradeEntry> := [];
    for i := 0 to |es|
      invariant done == es[..i]
      invariant Grouped(done, keys, bySubject)
    {
      var e := es[i];
      assert es[..i + 1] == done + [e];
      ghost var keys0, bySubject0 := keys, bySubject;
      if e.row.subject !in bySubject {
        keys := keys + [e.row.subject];
        bySubject := bySubject[e.row.subject := []];
      }
      bySubject := bySubject[e.row.subject := bySubject[e.row.subject] + [e.row.grade]];
      GroupStep(done, e, keys0, bySubject0, keys, bySubject);
      done := done + [e];
    }
    assert done == es;
    DedupFirstAppearance(Subjects(es));
  }

  /** What the dictionary and its key order hold after the entries `done`. */
  ghost predicate Grouped(done: seq<GradeEntry>, keys: seq<string>, m: map<string, seq<int>>) {
    && keys == Dedup(Subjects(done))
    && (forall k :: k in m <==> k in Subjects(done))
    && (forall k :: k in m ==> m[k] == GradesFor(done, k))
  }

  /** One entry added to the dictionary, as the loop adds it, keeps it grouped. */
  lemma GroupStep(done: seq<GradeEntry>, e: GradeEntry, keys: seq<string>, m: map<string, seq<int>>,
                  keys': seq<string>, m': map<string, seq<int>>)
    requires Grouped(done, keys, m)
    requires keys' == if e.row.subject in m then keys else keys + [e.row.subject]
    requires m' == m[e.row.subject := (if e.row.subject in m then m[e.row.subject] else []) + [e.row.grade]]
    ensures Grouped(done + [e], keys', m')
  {
    var s := e.row.subject;
    GradesStep(done, e);
    assert Subjects(done + [e]) == Subjects(done) + [s];
    if s !in m {
      GradesForPresent(done, s);
    }
  }

  /** What one more entry does to the subjects' first appearances and to the grades of
      each subject. */
  lemma GradesStep(done: seq<GradeEntry>, e: GradeEntry)
    ensures var keys := Dedup(Subjects(done));
            Dedup(Subjects(done + [e])) == if e.row.subject in keys then keys else keys + [e.row.subject]
    ensures forall k :: GradesFor(done + [e], k)
                          == GradesFor(done, k) + (if e.row.subject == k then [e.row.grade] else [])
  {
    var next := done + [e];
    assert next[..|done|] == done;
    assert Subjects(next)[..|done|] == Subjects(done);
  }

  /** A subject that occurs in the entries has at least one grade listed. */
  lemma {:induction false} GradesForPresent(es: seq<GradeEntry>, subject: string)
    ensures |GradesFor(es, subject)| == 0 <==> subject !in Subjects(es)
  {
    if es != [] {
      var done := es[..|es| - 1];
      GradesForPresent(done, subject);
      assert Subjects(es) == Subjects(done) + [es[|es| - 1].row.subject];
    }
  }

  /** The number of grades listed under `keys`. */
  function Listed(keys: seq<string>, es: seq<GradeEntry>): nat {
    if keys == [] then 0 else Listed(keys[..|keys| - 1], es) + |GradesFor(es, keys[|keys| - 1])|
  }

  /** One more entry adds one to the count of every key list that holds its subject once. */
  lemma {:induction false} ListedExtend(keys: seq<string>, done: seq<GradeEntry>, e: GradeEntry)
    requires forall i, j :: 0 <= i < j < |keys| ==> keys[i] != keys[j]
    ensures Listed(keys, done + [e]) == Listed(keys, done) + (if e.row.subject in keys then 1 else 0)
  {
    var es := done + [e];
    assert es[..|es| - 1] == done;
    if keys != [] {
      var front := keys[..|keys| - 1];
      ListedExtend(front, done, e);
      assert keys == front + [keys[|keys| - 1]];
    }
  }

  /** Every grade appears in exactly one block: the blocks list as many grades as there
      are entries. */
  lemma {:induction false} GradesAllListed(es: seq<GradeEntry>)
    ensures Listed(Dedup(Subjects(es)), es) == |es|
  {
    if es != [] {
      var done := es[..|es| - 1];
      var e := es[|es| - 1];
      assert done + [e] == es;
      var keys := Dedup(Subjects(done));
      assert Subjects(es) == Subjects(done) + [e.row.subject];
      GradesAllListed(done);
      ListedExtend(keys, done, e);
      if e.row.subject !in keys {
        GradesForPresent(done, e.row.subject);
        assert Dedup(Subjects(es)) == keys + [e.row.subject];
        assert Dedup(Subjects(es))[..|keys|] == keys;
        assert GradesFor(es, e.row.subject) == GradesFor(done, e.row.subject) + [e.row.grade];
      }
    }
  }

  /** The blocks of `format_grades`: one per distinct subject, none empty, each listing
      exactly that subject's grades, and all grades listed between them. */
  lemma BlocksOfShape(es: seq<GradeEntry>)
    ensures var bs := BlocksOf(es);
            && (forall s :: (exists i :: 0 <= i < |bs| && bs[i].subject == s) <==> s in Subjects(es))
            && (forall i, j :: 0 <= i < j < |bs| ==> bs[i].subject != bs[j].subject)
            && (forall i :: 0 <= i < |bs| ==> bs[i].grades == GradesFor(es, bs[i].subject) && bs[i].grades != [])
            && Listed(Dedup(Subjects(es)), es) == |es|
  {
    var keys := Dedup(Subjects(es));
    var bs := BlocksOf(es);
    forall s ensures (exists i :: 0 <= i < |bs| && bs[i].subject == s) <==> s in Subjects(es) {
      if s in Subjects(es) {
        var i :| 0 <= i < |keys| && keys[i] == s;
        assert bs[i].subject == s;
      }
    }
    forall i | 0 <= i < |bs| ensures bs[i].grades != [] {
      GradesForPresent(es, keys[i]);
    }
    GradesAllListed(es);
  }
}
