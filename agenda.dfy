/**
 * The agenda crate: a lesson, its conversion to an iCalendar VEVENT, and the
 * calendar of all lessons.
 *
 * Times are whole seconds since the Unix epoch (UTC). A UUID is kept as its
 * canonical text, which is what `to_string` gives. An event is the map from
 * property name to value that the builder fills, one `insert` per call; the
 * properties the calendar library adds on its own (such as DTSTAMP) are not
 * part of this model.
 */
module Agenda {
  import opened Wrappers

  /** A UUID, by its canonical hyphenated text. */
  datatype Uuid = Uuid(text: string)

  /** A colour as the timetable service writes it (CSS text). */
  datatype Color = Css(text: string)

  datatype Lesson = Lesson(
    teacher: Option<string>,
    location: Option<string>,
    start: int,
    end: int,
    course: Option<string>,
    id: Uuid,
    color: Option<Color>)

  /** A property value of an event: a date-time or text. */
  datatype Value = Time(seconds: int) | Text(text: string)

  type Event = map<string, Value>

  const UNNAMED: string := "(Namnlös)"

  /** `LessonLike::duration`: the lesson's length in seconds. */
  function Duration(l: Lesson): (d: int)
    ensures l.start + d == l.end
  {
    l.end - l.start
  }

  /** `LessonLike::to_event`: DTSTART, DTEND, UID and SUMMARY always; LOCATION and DESCRIPTION when present. */
  function ToEvent(l: Lesson): Event
  {
    var e: Event := map[];
    var e := e["DTSTART" := Time(l.start)];
    var e := e["DTEND" := Time(l.end)];
    var e := e["UID" := Text(l.id.text)];
    var e := e["SUMMARY" := Text(if l.course.Some? then l.course.value else UNNAMED)];
    var e := if l.location.Some? then e["LOCATION" := Text(l.location.value)] else e;
    if l.teacher.Some? then e["DESCRIPTION" := Text(l.teacher.value)] else e
  }

  /** `build_calendar`: one event per lesson, in order. */
  function BuildCalendar(lessons: seq<Lesson>): (cal: seq<Event>)
  {
    if |lessons| == 0 then [] else [ToEvent(lessons[0])] + BuildCalendar(lessons[1..])
  }

  /**
   * What a lesson's event holds: its start, end and UID; its course as summary
   * (or "(Namnlös)"); a LOCATION exactly when it has a location, a DESCRIPTION
   * (the teacher) exactly when it has a teacher; and no other property. In
   * particular there is no DURATION, which section 3.6.1 of RFC 5545 forbids
   * next to DTEND, and DTEND - DTSTART is the lesson's duration.
   */
  lemma EventProperties(l: Lesson)
    ensures var e := ToEvent(l);
      e.Keys <= {"DTSTART", "DTEND", "UID", "SUMMARY", "LOCATION", "DESCRIPTION"}
      && "DTSTART" in e && e["DTSTART"] == Time(l.start)
      && "DTEND" in e && e["DTEND"] == Time(l.end)
      && "UID" in e && e["UID"] == Text(l.id.text)
      && "SUMMARY" in e && e["SUMMARY"] == Text(if l.course.Some? then l.course.value else UNNAMED)
      && ("LOCATION" in e <==> l.location.Some?)
      && (l.location.Some? ==> e["LOCATION"] == Text(l.location.value))
      && ("DESCRIPTION" in e <==> l.teacher.Some?)
      && (l.teacher.Some? ==> e["DESCRIPTION"] == Text(l.teacher.value))
      && "DURATION" !in e
      && e["DTEND"].seconds - e["DTSTART"].seconds == Duration(l)
  {
  }

  /** Lessons that differ only in colour give the same event: colour is not exported. */
  lemma EventIgnoresColor(l: Lesson, c: Option<Color>)
    ensures ToEvent(l.(color := c)) == ToEvent(l)
  {
  }

  /** The calendar has exactly one event per lesson, the i-th from the i-th lesson. */
  lemma {:induction false} CalendarEvents(lessons: seq<Lesson>)
    ensures |BuildCalendar(lessons)| == |lessons|
    ensures forall i :: 0 <= i < |lessons| ==> BuildCalendar(lessons)[i] == ToEvent(lessons[i])
    decreases |lessons|
  {
    if |lessons| > 0 {
      CalendarEvents(lessons[1..]);
      forall i | 0 < i < |lessons| ensures BuildCalendar(lessons)[i] == ToEvent(lessons[i]) {
        assert lessons[1..][i - 1] == lessons[i];
      }
    }
  }

  /** Building the calendar of two runs of lessons concatenates their calendars. */
  lemma {:induction false} CalendarConcat(a: seq<Lesson>, b: seq<Lesson>)
    ensures BuildCalendar(a + b) == BuildCalendar(a) + BuildCalendar(b)
    decreases |a|
  {
    if |a| > 0 {
      assert (a + b)[1..] == a[1..] + b;
      CalendarConcat(a[1..], b);
    } else {
      assert a + b == b;
    }
  }
}
