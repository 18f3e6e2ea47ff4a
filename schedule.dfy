/**
 * The data shaping of the Skola24 timetable client (`skolplattformen`'s
 * `schedule` module): weekday numbers, the split of a lesson's texts,
 * serialisation of a timetable selection, the colour of each lesson GUID, and
 * the conversion of a week's raw lessons into agenda lessons.
 *
 * The HTTP requests are not modelled: a response is an input. The calendar
 * and identifier library calls (ISO week dates, time parsing, the Stockholm
 * time zone, UUID v5) are parameters, as functions of their arguments.
 */
module Schedule {
  import opened Wrappers
  import opened Assoc
  import Agenda

  type U8 = x: int | 0 <= x < 256

  datatype Weekday = Mon | Tue | Wed | Thu | Fri | Sat | Sun

  /** The crate's error type, as far as these functions produce it. */
  datatype AuthError = BadCredentials | ReqwestError(message: string) | ScrapingFailed(details: string)

  // ---------------------------------------------------------------------------
  // Weekdays.
  // ---------------------------------------------------------------------------

  /** `Lesson::weekday`: Skola24 numbers the days 1 (Monday) to 7 (Sunday). */
  function WeekdayOf(n: U8): Option<Weekday>
  {
    if n == 1 then Some(Mon)
    else if n == 2 then Some(Tue)
    else if n == 3 then Some(Wed)
    else if n == 4 then Some(Thu)
    else if n == 5 then Some(Fri)
    else if n == 6 then Some(Sat)
    else if n == 7 then Some(Sun)
    else None
  }

  /** A weekday's number counted from Monday as 1 (the calendar library's `number_from_monday`). */
  function DayNumber(d: Weekday): (n: U8)
    ensures 1 <= n <= 7
  {
    match d
    case Mon => 1
    case Tue => 2
    case Wed => 3
    case Thu => 4
    case Fri => 5
    case Sat => 6
    case Sun => 7
  }

  /** Exactly the numbers 1 to 7 name a weekday, and each names the day it counts to. */
  lemma WeekdayNumbers(n: U8)
    ensures WeekdayOf(n).Some? <==> 1 <= n <= 7
    ensures WeekdayOf(n).Some? ==> DayNumber(WeekdayOf(n).value) == n
  {
  }

  /** Every weekday is reached, from its own number. */
  lemma WeekdayOfDayNumber(d: Weekday)
    ensures WeekdayOf(DayNumber(d)) == Some(d)
  {
  }

  // ---------------------------------------------------------------------------
  // Lesson texts.
  // ---------------------------------------------------------------------------

  /** The texts with the empty strings filtered out, in order. */
  function NonEmpty(texts: seq<string>): (r: seq<string>)
    ensures |r| <= |texts|
    ensures forall s :: s in r <==> s in texts && s != ""
  {
    if |texts| == 0 then []
    else (if texts[0] != "" then [texts[0]] else []) + NonEmpty(texts[1..])
  }

  /** A double-ended iterator over `items`: `front..back` is what is left. */
  datatype TextIter = TextIter(items: seq<string>, front: nat, back: nat)
  {
    predicate Valid() { front <= back <= |items| }
  }

  function Next(it: TextIter): (r: (Option<string>, TextIter))
    requires it.Valid()
    ensures r.1.Valid()
  {
    if it.front == it.back then (None, it)
    else (Some(it.items[it.front]), it.(front := it.front + 1))
  }

  function NextBack(it: TextIter): (r: (Option<string>, TextIter))
    requires it.Valid()
    ensures r.1.Valid()
  {
    if it.front == it.back then (None, it)
    else (Some(it.items[it.back - 1]), it.(back := it.back - 1))
  }

  datatype LessonText = LessonText(course: Option<string>, teacher: Option<string>, location: Option<string>)

  /**
   * `checked_agenda_lesson`'s split of the non-empty texts, which are sometimes
   * `[course, location]` and sometimes `[course, teacher, location]`: the course
   * from the front, then the location from the back, then the teacher from the front.
   */
  function SplitTexts(texts: seq<string>): LessonText
  {
    var f := NonEmpty(texts);
    var it := TextIter(f, 0, |f|);
    var (course, it) := Next(it);
    var (location, it) := NextBack(it);
    var (teacher, _) := Next(it);
    LessonText(course, teacher, location)
  }

  /**
   * Of the non-empty texts: the course is the first, the location the last of
   * the others, the teacher the second when there are at least three; texts
   * between the teacher and the location are dropped.
   */
  lemma SplitTextsShape(texts: seq<string>)
    ensures var f, t := NonEmpty(texts), SplitTexts(texts);
      t.course == (if |f| >= 1 then Some(f[0]) else None)
      && t.location == (if |f| >= 2 then Some(f[|f| - 1]) else None)
      && t.teacher == (if |f| >= 3 then Some(f[1]) else None)
  {
  }

  /** The two shapes Skola24 sends, and empty strings anywhere are skipped. */
  lemma SplitTextsCases(course: string, teacher: string, location: string)
    requires course != "" && teacher != "" && location != ""
    ensures SplitTexts([course, location]) == LessonText(Some(course), None, Some(location))
    ensures SplitTexts([course, teacher, location]) == LessonText(Some(course), Some(teacher), Some(location))
    ensures SplitTexts(["", course, "", teacher, location, ""]) == LessonText(Some(course), Some(teacher), Some(location))
  {
    assert NonEmpty([location]) == [location];
    assert NonEmpty([course, location]) == [course, location];
    assert NonEmpty([teacher, location]) == [teacher, location];
    assert NonEmpty([course, teacher, location]) == [course, teacher, location];
    assert NonEmpty([location, ""]) == [location] by {
      assert NonEmpty([""]) == [];
    }
    assert NonEmpty(["", teacher, location, ""]) == [teacher, location];
    assert NonEmpty(["", course, "", teacher, location, ""]) == [course, teacher, location];
  }

  // ---------------------------------------------------------------------------
  // Selections.
  // ---------------------------------------------------------------------------

  datatype Selection = Class(guid: string) | Student(guid: string)

  /** The JSON object a selection serialises to: `selection` and `selectionType`. */
  datatype SelectionMap = SelectionMap(selection: string, selectionType: U8)

  /** `Selection::serialize`: a class is selection type 0, a student 5; the GUID is copied. */
  function Serialize(s: Selection): SelectionMap
  {
    match s
    case Class(guid) => SelectionMap(guid, 0)
    case Student(guid) => SelectionMap(guid, 5)
  }

  /** Reading a selection back from its JSON form. */
  function Deserialize(m: SelectionMap): Option<Selection>
  {
    if m.selectionType == 0 then Some(Class(m.selection))
    else if m.selectionType == 5 then Some(Student(m.selection))
    else None
  }

  /** A selection can be read back from what it serialises to, so serialisation loses nothing. */
  lemma {:induction false} SelectionRoundTrip(s: Selection)
    ensures Deserialize(Serialize(s)) == Some(s)
    ensures Serialize(s).selection == s.guid
    ensures Serialize(s).selectionType == (if s.Class? then 0 else 5)
  {
  }

  lemma {:induction false} SerializeInjective(a: Selection, b: Selection)
    requires Serialize(a) == Serialize(b)
    ensures a == b
  {
    SelectionRoundTrip(a);
    SelectionRoundTrip(b);
  }

  // ---------------------------------------------------------------------------
  // Lesson colours.
  // ---------------------------------------------------------------------------

  /** A box of the rendered timetable: its background colour and the lessons it draws. */
  datatype Box = Box(color: Agenda.Color, lessonGuids: Option<seq<string>>)

  /** `lesson_guids.unwrap_or_default()`. */
  function Guids(b: Box): seq<string>
  {
    if b.lessonGuids.Some? then b.lessonGuids.value else []
  }

  /** One box's `(guid, colour)` pairs. */
  function BoxPairs(guids: seq<string>, color: Agenda.Color): seq<(string, Agenda.Color)>
  {
    if |guids| == 0 then [] else BoxPairs(guids[..|guids| - 1], color) + [(guids[|guids| - 1], color)]
  }

  /** The `flat_map` over the boxes. */
  function FlatPairs(boxes: seq<Box>): seq<(string, Agenda.Color)>
  {
    if |boxes| == 0 then []
    else FlatPairs(boxes[..|boxes| - 1]) + BoxPairs(Guids(boxes[|boxes| - 1]), boxes[|boxes| - 1].color)
  }

  /** `guid_colors`: the pairs of every box collected into a map. */
  function GuidColors(boxes: seq<Box>): map<string, Agenda.Color>
  {
    Collect(FlatPairs(boxes))
  }

  lemma {:induction false} BoxPairsCollect(guids: seq<string>, color: Agenda.Color)
    ensures Collect(BoxPairs(guids, color)).Keys == set g | g in guids
    ensures forall g :: g in Collect(BoxPairs(guids, color)) ==> Collect(BoxPairs(guids, color))[g] == color
    decreases |guids|
  {
    if |guids| > 0 {
      var init := guids[..|guids| - 1];
      BoxPairsCollect(init, color);
      var ps := BoxPairs(guids, color);
      assert ps[..|ps| - 1] == BoxPairs(init, color);
      assert guids == init + [guids[|guids| - 1]];
    }
  }

  /** A GUID has a colour exactly when some box lists it; boxes without GUIDs add nothing. */
  lemma {:induction false} GuidColorsKeys(boxes: seq<Box>, k: string)
    ensures k in GuidColors(boxes) <==> exists i :: 0 <= i < |boxes| && k in Guids(boxes[i])
    decreases |boxes|
  {
    if |boxes| > 0 {
      var init, last := boxes[..|boxes| - 1], boxes[|boxes| - 1];
      GuidColorsKeys(init, k);
      CollectConcat(FlatPairs(init), BoxPairs(Guids(last), last.color));
      BoxPairsCollect(Guids(last), last.color);
      assert forall i :: 0 <= i < |init| ==> boxes[i] == init[i];
      if k !in Guids(last) && exists i :: 0 <= i < |boxes| && k in Guids(boxes[i]) {
        var i :| 0 <= i < |boxes| && k in Guids(boxes[i]);
        assert i < |init|;
      }
    }
  }

  /** A GUID listed by several boxes gets the colour of the last of them. */
  lemma {:induction false} GuidColorsLast(boxes: seq<Box>, i: nat, k: string)
    requires i < |boxes| && k in Guids(boxes[i])
    requires forall j :: i < j < |boxes| ==> k !in Guids(boxes[j])
    ensures k in GuidColors(boxes) && GuidColors(boxes)[k] == boxes[i].color
    decreases |boxes|
  {
    var init, last := boxes[..|boxes| - 1], boxes[|boxes| - 1];
    CollectConcat(FlatPairs(init), BoxPairs(Guids(last), last.color));
    BoxPairsCollect(Guids(last), last.color);
    if i < |init| {
      assert init[i] == boxes[i];
      assert forall j :: i < j < |init| ==> init[j] == boxes[j];
      GuidColorsLast(init, i, k);
    }
  }

  // ---------------------------------------------------------------------------
  // Lessons of a week.
  // ---------------------------------------------------------------------------

  /** A lesson as Skola24 sends it. */
  datatype RawLesson = RawLesson(guidId: string, texts: seq<string>, timeStart: string, timeEnd: string, dayOfWeekNumber: U8)

  /** A calendar date, as a day number. */
  type Date = int

  /**
   * The library calls `lessons_by_week` makes for the requested week: the date
   * of a weekday of that ISO week (if it exists), parsing a time of day into
   * seconds, turning a Stockholm local date and time into UTC seconds (when
   * the local time is unambiguous), and the v5 UUID of a lesson GUID.
   */
  datatype Libraries = Libraries(
    isoDate: Weekday -> Option<Date>,
    parseTime: string -> Option<int>,
    localToUtc: (Date, int) -> Option<int>,
    uuidV5: string -> Agenda.Uuid)

  /** `checked_agenda_lesson`: both times must parse and convert; the texts are split. */
  function CheckedAgendaLesson(l: RawLesson, date: Date, color: Option<Agenda.Color>, lib: Libraries): Option<Agenda.Lesson>
  {
    var start := lib.parseTime(l.timeStart);
    var end := lib.parseTime(l.timeEnd);
    if start.None? || end.None? then None
    else
      var text := SplitTexts(l.texts);
      var startUtc := lib.localToUtc(date, start.value);
      var endUtc := lib.localToUtc(date, end.value);
      if startUtc.None? || endUtc.None? then None
      else Some(Agenda.Lesson(text.teacher, text.location, startUtc.value, endUtc.value, text.course,
                              lib.uuidV5(l.guidId), color))
  }

  /** The `filter_map` closure: look up the colour, date the weekday, then convert. */
  function ToAgenda(l: RawLesson, colors: map<string, Agenda.Color>, lib: Libraries): Option<Agenda.Lesson>
  {
    var color := if l.guidId in colors then Some(colors[l.guidId]) else None;
    var weekday := WeekdayOf(l.dayOfWeekNumber);
    if weekday.None? then None
    else
      var date := lib.isoDate(weekday.value);
      if date.None? then None else CheckedAgendaLesson(l, date.value, color, lib)
  }

  /** The `filter_map` closure, for one week's colours and libraries. */
  function Converter(colors: map<string, Agenda.Color>, lib: Libraries): RawLesson -> Option<Agenda.Lesson>
  {
    l => ToAgenda(l, colors, lib)
  }

  /** The `filter_map` over the lessons. */
  function LessonsOf(ls: seq<RawLesson>, colors: map<string, Agenda.Color>, lib: Libraries): seq<Agenda.Lesson>
  {
    FilterMap(ls, Converter(colors, lib))
  }

  datatype Validation = Validation

  /** The `data` of a render response; absent lists count as empty. */
  datatype WeekData = WeekData(lessonInfo: Option<seq<RawLesson>>, boxList: Option<seq<Box>>)

  function OrEmpty<T>(o: Option<seq<T>>): seq<T>
  {
    if o.Some? then o.value else []
  }

  /** What `lessons_by_week` makes of a render response. */
  function LessonsByWeek(data: WeekData, validation: seq<Validation>, lib: Libraries): Result<seq<Agenda.Lesson>, AuthError>
  {
    if |validation| != 0 then Err(ScrapingFailed("skola24 validation error"))
    else
      var colors := GuidColors(OrEmpty(data.boxList));
      Ok(LessonsOf(OrEmpty(data.lessonInfo), colors, lib))
  }

  /** A non-empty validation list fails the whole week, with no lessons; an empty one never fails. */
  lemma ValidationFails(data: WeekData, validation: seq<Validation>, lib: Libraries)
    ensures LessonsByWeek(data, validation, lib).Err? <==> |validation| > 0
    ensures |validation| > 0 ==> LessonsByWeek(data, validation, lib) == Err(ScrapingFailed("skola24 validation error"))
  {
  }

  /** An absent lesson list gives no lessons; an absent box list gives lessons without colour. */
  lemma {:induction false} AbsentLists(validation: seq<Validation>, boxes: Option<seq<Box>>, ls: seq<RawLesson>, lib: Libraries)
    requires |validation| == 0
    ensures LessonsByWeek(WeekData(None, boxes), validation, lib) == Ok([])
    ensures var r := LessonsByWeek(WeekData(Some(ls), None), validation, lib);
      r.Ok? && forall x :: x in r.value ==> x.color == None
  {
    assert GuidColors([]) == map[];
    NoColors(ls, lib);
  }

  lemma NoColors(ls: seq<RawLesson>, lib: Libraries)
    ensures forall x :: x in LessonsOf(ls, map[], lib) ==> x.color == None
  {
    forall x | x in LessonsOf(ls, map[], lib) ensures x.color == None {
      FilterMapMembers(ls, Converter(map[], lib), x);
    }
  }

  /**
   * A lesson whose weekday number is not 1 to 7, or whose date or times do
   * not convert, is dropped silently; the lessons around it keep their order.
   */
  lemma DroppedLesson(a: seq<RawLesson>, l: RawLesson, b: seq<RawLesson>, colors: map<string, Agenda.Color>, lib: Libraries)
    requires ToAgenda(l, colors, lib).None? || !(1 <= l.dayOfWeekNumber <= 7)
    ensures LessonsOf(a + [l] + b, colors, lib) == LessonsOf(a, colors, lib) + LessonsOf(b, colors, lib)
  {
    var f := Converter(colors, lib);
    FilterMapConcat(a + [l], b, f);
    FilterMapConcat(a, [l], f);
    assert FilterMap([l], f) == [] by {
      assert [l][..0] == [];
    }
  }

  /**
   * No lesson is invented: each one kept is the conversion of some raw lesson,
   * at most one per raw lesson, and one each exactly when all convert.
   */
  lemma LessonsOfCount(ls: seq<RawLesson>, colors: map<string, Agenda.Color>, lib: Libraries)
    ensures |LessonsOf(ls, colors, lib)| <= |ls|
    ensures |LessonsOf(ls, colors, lib)| == |ls| <==> forall i :: 0 <= i < |ls| ==> ToAgenda(ls[i], colors, lib).Some?
    ensures forall x :: x in LessonsOf(ls, colors, lib) ==> exists i :: 0 <= i < |ls| && ToAgenda(ls[i], colors, lib) == Some(x)
  {
    var f := Converter(colors, lib);
    FilterMapCount(ls, f);
    forall x | x in LessonsOf(ls, colors, lib) ensures exists i :: 0 <= i < |ls| && ToAgenda(ls[i], colors, lib) == Some(x) {
      FilterMapMembers(ls, f, x);
    }
  }

  /**
   * A converted lesson has a valid weekday, start and end times that are its
   * parsed local times on that weekday's date turned into UTC, the split
   * texts, the colour of its GUID (if any box gave it one) and the v5 UUID of
   * its GUID.
   */
  lemma KeptLesson(l: RawLesson, colors: map<string, Agenda.Color>, lib: Libraries)
    requires ToAgenda(l, colors, lib).Some?
    ensures var x, t := ToAgenda(l, colors, lib).value, SplitTexts(l.texts);
      1 <= l.dayOfWeekNumber <= 7
      && lib.isoDate(WeekdayOf(l.dayOfWeekNumber).value).Some?
      && lib.parseTime(l.timeStart).Some? && lib.parseTime(l.timeEnd).Some?
      && var date := lib.isoDate(WeekdayOf(l.dayOfWeekNumber).value).value;
      lib.localToUtc(date, lib.parseTime(l.timeStart).value) == Some(x.start)
      && lib.localToUtc(date, lib.parseTime(l.timeEnd).value) == Some(x.end)
      && x.course == t.course && x.teacher == t.teacher && x.location == t.location
      && x.color == (if l.guidId in colors then Some(colors[l.guidId]) else None)
      && x.id == lib.uuidV5(l.guidId)
  {
  }

  // ---------------------------------------------------------------------------
  // Timetables.
  // ---------------------------------------------------------------------------

  datatype Timetable = Timetable(
    schoolGuid: string,
    unitGuid: string,
    schoolId: string,
    timetableId: Option<string>,
    personGuid: string,
    firstName: string,
    lastName: string)

  /** `list_timetables`: the student timetables of the response, none when the list is absent. */
  function StudentTimetables(studentTimetables: Option<seq<Timetable>>): seq<Timetable>
  {
    OrEmpty(studentTimetables)
  }
}
