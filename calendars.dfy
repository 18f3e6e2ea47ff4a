/**
 * The Google Calendar export page of the web client: which calendars may be
 * chosen, the `toHex` event identifiers, the colour-id lookup table, and the
 * event built from each lesson.
 *
 * JavaScript strings are sequences of UTF-16 code units; `toHex` works on
 * those, so a lesson id is a `seq<CodeUnit>`. The closest-colour search
 * (floating point, in a foreign library) is not modelled, so an event here
 * has no `colorId`.
 */
module Calendars {
  import opened Wrappers
  import opened Assoc
  import Agenda

  type CodeUnit = x: int | 0 <= x < 0x1_0000

  // ---------------------------------------------------------------------------
  // toHex.
  // ---------------------------------------------------------------------------

  const HEX_DIGITS: string := "0123456789abcdef"

  predicate IsHexDigit(c: char)
  {
    c in HEX_DIGITS
  }

  function HexValue(c: char): (v: int)
    ensures 0 <= v < 16
  {
    if '0' <= c <= '9' then c as int - '0' as int
    else if 'a' <= c <= 'f' then c as int - 'a' as int + 10
    else 0
  }

  /** `n.toString(16)`: lower-case hexadecimal without leading zeros ("0" for zero). */
  function Hex(n: nat): (s: string)
    ensures |s| >= 1
    ensures forall c :: c in s ==> IsHexDigit(c)
  {
    if n < 16 then [HEX_DIGITS[n]] else Hex(n / 16) + [HEX_DIGITS[n % 16]]
  }

  /** Reading hexadecimal digits back as a number. */
  function ParseHex(s: string): nat
  {
    if |s| == 0 then 0 else ParseHex(s[..|s| - 1]) * 16 + HexValue(s[|s| - 1])
  }

  /** The concatenation of every code unit's `toString(16)`. */
  function HexOf(units: seq<CodeUnit>): string
  {
    if |units| == 0 then [] else Hex(units[0]) + HexOf(units[1..])
  }

  /** `toHex`: the loop appending each code unit's hexadecimal form. */
  method ToHex(str: seq<CodeUnit>) returns (result: string)
    ensures result == HexOf(str)
  {
    result := "";
    var i := 0;
    while i < |str|
      invariant 0 <= i <= |str|
      invariant result == HexOf(str[..i])
    {
      HexOfSnoc(str[..i], str[i]);
      assert str[..i + 1] == str[..i] + [str[i]];
      result := result + Hex(str[i]);
      i := i + 1;
    }
    assert str[..i] == str;
  }

  lemma {:induction false} HexOfSnoc(s: seq<CodeUnit>, u: CodeUnit)
    ensures HexOf(s + [u]) == HexOf(s) + Hex(u)
    decreases |s|
  {
    if |s| == 0 {
      assert [u][1..] == [];
    } else {
      assert (s + [u])[1..] == s[1..] + [u];
      HexOfSnoc(s[1..], u);
    }
  }

  /** The digits are those of the number: parsing them gives it back. */
  lemma {:induction false} HexRoundTrip(n: nat)
    ensures ParseHex(Hex(n)) == n
    decreases n
  {
    var s := Hex(n);
    HexDigitValue(n % 16);
    if n < 16 {
      assert s[..0] == [];
    } else {
      HexRoundTrip(n / 16);
      assert s[..|s| - 1] == Hex(n / 16);
    }
  }

  lemma HexDigitValue(d: nat)
    requires d < 16
    ensures HexValue(HEX_DIGITS[d]) == d
  {
  }

  /** One digit below 16, two from 16 to 255, three or four above. */
  lemma {:induction false} HexLength(n: nat)
    ensures n < 16 <==> |Hex(n)| == 1
    ensures 16 <= n < 256 <==> |Hex(n)| == 2
    ensures n < 0x1000 ==> |Hex(n)| <= 3
    ensures n < 0x1_0000 ==> |Hex(n)| <= 4
    decreases n
  {
    if n >= 16 {
      HexLength(n / 16);
    }
  }

  /** `toHex` emits only lower-case hexadecimal digits, and nothing for the empty string. */
  lemma {:induction false} HexOfDigits(units: seq<CodeUnit>)
    ensures forall c :: c in HexOf(units) ==> IsHexDigit(c)
    ensures |units| == 0 <==> HexOf(units) == ""
    decreases |units|
  {
    if |units| > 0 {
      HexOfDigits(units[1..]);
    }
  }

  /** Every code unit takes two digits from 16 to 255, as in the text of a UUID. */
  predicate ByteText(units: seq<CodeUnit>)
  {
    forall i :: 0 <= i < |units| ==> 16 <= units[i] < 256
  }

  /** Reading two digits at a time. */
  function Unhex(s: string): seq<int>
    decreases |s|
  {
    if |s| < 2 then [] else [ParseHex(s[..2])] + Unhex(s[2..])
  }

  /** On such text the output is twice as long and can be read back, pair by pair. */
  lemma {:induction false} ByteTextRoundTrip(units: seq<CodeUnit>)
    requires ByteText(units)
    ensures |HexOf(units)| == 2 * |units|
    ensures Unhex(HexOf(units)) == units
    decreases |units|
  {
    if |units| > 0 {
      var h, rest := Hex(units[0]), HexOf(units[1..]);
      HexLength(units[0]);
      HexRoundTrip(units[0]);
      ByteTextRoundTrip(units[1..]);
      assert (h + rest)[..2] == h;
      assert (h + rest)[2..] == rest;
    }
  }

  /** So distinct lesson ids of that kind give distinct event ids. */
  lemma {:induction false} ByteTextInjective(a: seq<CodeUnit>, b: seq<CodeUnit>)
    requires ByteText(a) && ByteText(b) && HexOf(a) == HexOf(b)
    ensures a == b
  {
    ByteTextRoundTrip(a);
    ByteTextRoundTrip(b);
  }

  /** Below 16 the digits run together: two different strings share an id. */
  lemma ShortUnitsCollide()
    ensures HexOf([0x1, 0x23]) == HexOf([0x12, 0x3]) == "123"
  {
    assert [0x1, 0x23][1..] == [0x23];
    assert [0x12, 0x3][1..] == [0x3];
  }

  // ---------------------------------------------------------------------------
  // Calendar choice.
  // ---------------------------------------------------------------------------

  datatype AccessRole = Reader | Writer | Owner

  datatype CalendarListEntry = CalendarListEntry(
    id: string,
    summary: string,
    description: string,
    backgroundColor: string,
    foregroundColor: string,
    accessRole: AccessRole)

  predicate CanWrite(e: CalendarListEntry)
  {
    e.accessRole == Writer || e.accessRole == Owner
  }

  /** An entry kept by the filter. */
  function IfWritable(e: CalendarListEntry): Option<CalendarListEntry>
  {
    if CanWrite(e) then Some(e) else None
  }

  /** The filter of the calendar list down to the calendars that may be written. */
  function Writable(items: seq<CalendarListEntry>): seq<CalendarListEntry>
  {
    FilterMap(items, IfWritable)
  }

  /** `data?.items.filter(...)`: nothing while the list has not arrived. */
  function WritableCalendars(data: Option<seq<CalendarListEntry>>): Option<seq<CalendarListEntry>>
  {
    if data.Some? then Some(Writable(data.value)) else None
  }

  /**
   * The writable calendars are exactly the entries with the writer or owner
   * role, all of them when every entry has one; the filter keeps the list's
   * order, working piece by piece.
   */
  lemma WritableSpec(items: seq<CalendarListEntry>, more: seq<CalendarListEntry>)
    ensures forall e :: e in Writable(items) <==> e in items && CanWrite(e)
    ensures |Writable(items)| == |items| <==> forall i :: 0 <= i < |items| ==> CanWrite(items[i])
    ensures Writable(items + more) == Writable(items) + Writable(more)
  {
    FilterMapCount(items, IfWritable);
    FilterMapConcat(items, more, IfWritable);
    forall e ensures e in Writable(items) <==> e in items && CanWrite(e) {
      FilterMapMembers(items, IfWritable, e);
    }
  }

  // ---------------------------------------------------------------------------
  // Colour ids.
  // ---------------------------------------------------------------------------

  datatype ColorDefinition = ColorDefinition(background: string, foreground: string)

  /** The `(id, colour)` entry turned round to `(background, id)`. */
  function Inverted(entry: (string, ColorDefinition)): Option<(string, string)>
  {
    Some((entry.1.background, entry.0))
  }

  /** `colorIds`: the event colours, looked up by background; `entries` in `Object.entries` order. */
  function ColorIds(entries: seq<(string, ColorDefinition)>): map<string, string>
  {
    Collect(FilterMap(entries, Inverted))
  }

  /**
   * A background has an id exactly when some colour has that background, and
   * the id is that of the last such colour.
   */
  lemma ColorIdsSpec(entries: seq<(string, ColorDefinition)>, background: string)
    ensures background in ColorIds(entries) <==> exists i :: 0 <= i < |entries| && entries[i].1.background == background
    ensures background in ColorIds(entries) ==>
      exists i :: 0 <= i < |entries| && entries[i].1.background == background
        && ColorIds(entries)[background] == entries[i].0
        && forall j :: i < j < |entries| ==> entries[j].1.background != background
  {
    CollectFilterMap(entries, Inverted, background);
  }

  /** When no two colours share a background, the table is the exact inverse. */
  lemma ColorIdsInverse(entries: seq<(string, ColorDefinition)>, i: nat)
    requires i < |entries|
    requires forall j, k :: 0 <= j < k < |entries| ==> entries[j].1.background != entries[k].1.background
    ensures entries[i].1.background in ColorIds(entries)
    ensures ColorIds(entries)[entries[i].1.background] == entries[i].0
  {
    ColorIdsSpec(entries, entries[i].1.background);
  }

  // ---------------------------------------------------------------------------
  // Events.
  // ---------------------------------------------------------------------------

  /** A lesson as the API returns it to the web client; times are ISO text. */
  datatype Lesson = Lesson(
    teacher: Option<string>,
    location: Option<string>,
    start: string,
    end: string,
    course: Option<string>,
    id: seq<CodeUnit>,
    color: Option<string>)

  /** The event fields the page sets, apart from `colorId`; `None` stands for `undefined`. */
  datatype CalendarEvent = CalendarEvent(
    summary: string,
    description: Option<string>,
    location: Option<string>,
    startDateTime: string,
    endDateTime: string,
    id: string)

  /** The lesson-to-event map of the export page. */
  function ToCalendarEvent(l: Lesson): CalendarEvent
  {
    CalendarEvent(
      if l.course.Some? then l.course.value else Agenda.UNNAMED,
      l.teacher,
      l.location,
      l.start,
      l.end,
      HexOf(l.id))
  }

  /** All weeks' lessons, flattened in order. */
  function Flat(weeks: seq<seq<Lesson>>): seq<Lesson>
  {
    if |weeks| == 0 then [] else weeks[0] + Flat(weeks[1..])
  }

  function MapEvents(ls: seq<Lesson>): seq<CalendarEvent>
  {
    if |ls| == 0 then [] else [ToCalendarEvent(ls[0])] + MapEvents(ls[1..])
  }

  /** `data?.flat().map(...)`: no events until the first weeks are fetched. */
  function Events(data: Option<seq<seq<Lesson>>>): Option<seq<CalendarEvent>>
  {
    if data.Some? then Some(MapEvents(Flat(data.value))) else None
  }

  /**
   * An event's summary is the course or "(Namnlös)", its description the
   * teacher, its location and times the lesson's own, and its id the hex text
   * of the lesson id, two digits per character for a UUID.
   */
  lemma EventFields(l: Lesson)
    ensures var e := ToCalendarEvent(l);
      e.summary == (if l.course.Some? then l.course.value else "(Namnlös)")
      && e.description == l.teacher && e.location == l.location
      && e.startDateTime == l.start && e.endDateTime == l.end
      && e.id == HexOf(l.id)
      && (forall c :: c in e.id ==> IsHexDigit(c))
      && (ByteText(l.id) ==> |e.id| == 2 * |l.id|)
  {
    HexOfDigits(l.id);
    if ByteText(l.id) {
      ByteTextRoundTrip(l.id);
    }
  }

  /** One event per fetched lesson, week after week, each from its lesson. */
  lemma {:induction false} EventsOfLessons(ls: seq<Lesson>)
    ensures |MapEvents(ls)| == |ls|
    ensures forall i :: 0 <= i < |ls| ==> MapEvents(ls)[i] == ToCalendarEvent(ls[i])
    decreases |ls|
  {
    if |ls| > 0 {
      EventsOfLessons(ls[1..]);
      forall i | 0 < i < |ls| ensures MapEvents(ls)[i] == ToCalendarEvent(ls[i]) {
        assert ls[1..][i - 1] == ls[i];
      }
    }
  }

  lemma {:induction false} FlatConcat(a: seq<seq<Lesson>>, b: seq<seq<Lesson>>)
    ensures Flat(a + b) == Flat(a) + Flat(b)
    decreases |a|
  {
    if |a| == 0 {
      assert a + b == b;
    } else {
      assert (a + b)[1..] == a[1..] + b;
      FlatConcat(a[1..], b);
    }
  }

  /** Fetching one more week appends that week's events and keeps the earlier ones. */
  lemma {:induction false} EventsNextWeek(weeks: seq<seq<Lesson>>, week: seq<Lesson>)
    ensures Events(Some(weeks + [week])) == Some(MapEvents(Flat(weeks)) + MapEvents(week))
  {
    FlatConcat(weeks, [week]);
    assert Flat([week]) == week by {
      assert [week][1..] == [];
    }
    MapEventsConcat(Flat(weeks), week);
  }

  lemma {:induction false} MapEventsConcat(a: seq<Lesson>, b: seq<Lesson>)
    ensures MapEvents(a + b) == MapEvents(a) + MapEvents(b)
    decreases |a|
  {
    if |a| == 0 {
      assert a + b == b;
    } else {
      assert (a + b)[1..] == a[1..] + b;
      MapEventsConcat(a[1..], b);
    }
  }

  /**
   * The page describes a lesson as the server's iCalendar export does: the
   * same summary, the same location exactly when there is one, and the
   * teacher as description exactly when there is one.
   */
  lemma AgreesWithAgenda(l: Lesson, a: Agenda.Lesson)
    requires l.course == a.course && l.teacher == a.teacher && l.location == a.location
    ensures var e, v := ToCalendarEvent(l), Agenda.ToEvent(a);
      v["SUMMARY"] == Agenda.Text(e.summary)
      && ("LOCATION" in v <==> e.location.Some?)
      && (e.location.Some? ==> v["LOCATION"] == Agenda.Text(e.location.value))
      && ("DESCRIPTION" in v <==> e.description.Some?)
      && (e.description.Some? ==> v["DESCRIPTION"] == Agenda.Text(e.description.value))
  {
    Agenda.EventProperties(a);
  }
}
