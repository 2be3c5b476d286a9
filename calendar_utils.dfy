/**
 * `validate_event_data` and `format_event_time_indian` (calendar_utils.py):
 * the clean-up an event dict gets before it is sent to the calendar service.
 *
 * Both functions copy only the top level of the event (`dict.copy()`), so the
 * `start`/`end` dicts and the `attendee` list they update are the caller's
 * own objects. The clock (`datetime.now()`) is the parameter `c`: its first
 * reading, and the texts written for a default start and a default end, each
 * taken from a later reading of its own.
 */
module CalendarUtils {
  import opened Wrappers
  import opened Json
  import opened DateTimes
  import opened DateParsing
  import opened Text
  import opened PyObjects

  /** Indian Standard Time: the zone name and the offset appended to every time written. */
  const DEFAULT_TIMEZONE := "Asia/Kolkata"
  const DEFAULT_TIMEZONE_OFFSET := "+05:30"

  const UNTITLED_EVENT := "Untitled Event"
  /** The message of the ValueError `replace(year=...)` raises for 29 February. */
  const DAY_OUT_OF_RANGE := "day is out of range for month"

  const SUMMARY := "summary"
  const START := "start"
  const END := "end"
  const ATTENDEES := "attendees"
  const DATE_TIME := "dateTime"
  const TIME_ZONE := "timeZone"
  const EMAIL := "email"

  /** The two time fields, visited in this order. */
  datatype TimeField = Start | End

  function FieldName(f: TimeField): string
  {
    match f
    case Start => START
    case End => END
  }

  /** A missing start defaults to an hour from now, a missing end to two hours from now. */
  function OffsetHours(f: TimeField): nat
  {
    match f
    case Start => 1
    case End => 2
  }

  /**
   * The readings of `datetime.now()` one call takes: `now`, the first (the
   * current year comes from it), and the texts
   * `(datetime.now() + timedelta(hours=1 or 2)).strftime('%Y-%m-%dT%H:%M:%S') + '+05:30'`
   * written for a default start and a default end, each read when it is needed.
   */
  datatype Clock = Clock(now: DateTime, startDefault: string, endDefault: string)

  /** The text a default start or end is written as. */
  function DefaultText(f: TimeField, c: Clock): string
  {
    match f
    case Start => c.startDefault
    case End => c.endDefault
  }

  /** `now + timedelta(hours=2)` does not overflow (Python raises OverflowError past 9999-12-31). */
  predicate ReadingOk(now: DateTime)
  {
    Valid(now) && (now.hour + 2 < 24 || !IsLastRepresentableDay(now))
  }

  lemma IstOffsetLength()
    ensures OffsetLength(DEFAULT_TIMEZONE_OFFSET) == |DEFAULT_TIMEZONE_OFFSET|
  {
    var s := DEFAULT_TIMEZONE_OFFSET;
    assert s[1..][..2] == "05" && s[4..][..2] == "30";
    assert Text.DigitsValue("05") == 5 by {
      assert "05"[..1] == "0";
      assert "0"[..0] == "";
    }
    assert Text.DigitsValue("30") == 30 by {
      assert "30"[..1] == "3";
      assert "3"[..0] == "";
    }
  }

  /**
   * `d.strftime('%Y-%m-%dT%H:%M:%S')`: `Strftime(ISO_NAIVE, d)` written out
   * directive by directive, which keeps the proofs about `Render` cheap.
   * `IsoStampIsStrftime` shows the two agree; it is not a second format.
   */
  function IsoStamp(d: DateTime): (s: string)
    requires Valid(d)
    ensures |s| == 19
  {
    Pad4(d.year) + ("-" + (Pad2(d.month) + ("-" + (Pad2(d.day) + ("T" +
    (Pad2(d.hour) + (":" + (Pad2(d.minute) + (":" + Pad2(d.second))))))))))
  }

  /** `d.strftime('%Y-%m-%dT%H:%M:%S') + DEFAULT_TIMEZONE_OFFSET`, the form every time is written back in. */
  function Render(d: DateTime): (s: string)
    requires Valid(d)
    ensures |s| == 25
  {
    IsoStamp(d) + DEFAULT_TIMEZONE_OFFSET
  }

  /** The stamp is `strftime` with the ISO format. */
  lemma IsoStampIsStrftime(d: DateTime)
    requires Valid(d)
    ensures IsoStamp(d) == Strftime(ISO_NAIVE, d)
  {
    var f11 := [Second2];
    StrftimeCons(Second2, [], d);
    var t := Pad2(d.second);
    assert Strftime(f11, d) == t;
    var f10 := [Lit(':')] + f11;
    StrftimeCons(Lit(':'), f11, d);
    t := ":" + t;
    assert Strftime(f10, d) == t;
    var f9 := [Minute2] + f10;
    StrftimeCons(Minute2, f10, d);
    t := Pad2(d.minute) + t;
    assert Strftime(f9, d) == t;
    var f8 := [Lit(':')] + f9;
    StrftimeCons(Lit(':'), f9, d);
    t := ":" + t;
    assert Strftime(f8, d) == t;
    var f7 := [Hour2] + f8;
    StrftimeCons(Hour2, f8, d);
    t := Pad2(d.hour) + t;
    assert Strftime(f7, d) == t;
    var f6 := [Lit('T')] + f7;
    StrftimeCons(Lit('T'), f7, d);
    t := "T" + t;
    assert Strftime(f6, d) == t;
    var f5 := [Day2] + f6;
    StrftimeCons(Day2, f6, d);
    t := Pad2(d.day) + t;
    assert Strftime(f5, d) == t;
    var f4 := [Lit('-')] + f5;
    StrftimeCons(Lit('-'), f5, d);
    t := "-" + t;
    assert Strftime(f4, d) == t;
    var f3 := [Month2] + f4;
    StrftimeCons(Month2, f4, d);
    t := Pad2(d.month) + t;
    assert Strftime(f3, d) == t;
    var f2 := [Lit('-')] + f3;
    StrftimeCons(Lit('-'), f3, d);
    t := "-" + t;
    assert Strftime(f2, d) == t;
    var f1 := [Year4] + f2;
    StrftimeCons(Year4, f2, d);
    t := Pad4(d.year) + t;
    assert Strftime(f1, d) == t;
    assert f1 == ISO_NAIVE;
  }

  /** `parse_datetime` reads a rendered time back as the same time. */
  lemma RenderReadsBack(d: DateTime)
    requires Valid(d)
    ensures ParseDateTime(Render(d)) == Some(d)
  {
    IsoStampIsStrftime(d);
    IstOffsetLength();
    ParseIsoWithOffset(d, DEFAULT_TIMEZONE_OFFSET);
  }

  /** The default time of a clock that has not moved since `now`: `now` plus one or two hours. */
  function DefaultTime(f: TimeField, now: DateTime): (d: DateTime)
    requires ReadingOk(now)
    ensures Valid(d) && d.year >= now.year
  {
    AddHours(now, OffsetHours(f))
  }

  /** The clock stands still during the call: each default is `now` plus its offset, written out. */
  predicate Steady(c: Clock)
  {
    && ReadingOk(c.now)
    && c.startDefault == Render(DefaultTime(Start, c.now))
    && c.endDefault == Render(DefaultTime(End, c.now))
  }

  /** `text` is a time written out by `Render`, in the year `year` or later. */
  predicate RenderedSince(text: string, year: int)
  {
    match ParseDateTime(text)
    case None => false
    case Some(t) => text == Render(t) && t.year >= year
  }

  /**
   * The clock goes forward: `now` is a valid time and each default text is
   * a written time no earlier than the current year.
   */
  predicate ClockOk(c: Clock)
  {
    Valid(c.now) && RenderedSince(c.startDefault, c.now.year) && RenderedSince(c.endDefault, c.now.year)
  }

  /** A clock that stands still goes forward, and its defaults read back as one and two hours after `now`. */
  lemma SteadyClockOk(c: Clock, f: TimeField)
    requires Steady(c)
    ensures ClockOk(c)
    ensures ParseDateTime(DefaultText(f, c)) == Some(DefaultTime(f, c.now))
    ensures Instant(DefaultTime(f, c.now)) == Instant(c.now) + 3600 * OffsetHours(f)
  {
    RenderReadsBack(DefaultTime(Start, c.now));
    RenderReadsBack(DefaultTime(End, c.now));
    AddHoursInstant(c.now, OffsetHours(f));
  }

  /** The dict that replaces a missing (or, when formatting, non-dict) time field. */
  function DefaultTimeEntries(f: TimeField, c: Clock): map<string, Json>
  {
    map[DATE_TIME := Str(DefaultText(f, c)), TIME_ZONE := Str(DEFAULT_TIMEZONE)]
  }

  /** The new entries of one time dict, and the warnings its repair produced. */
  datatype TimeRepair = TimeRepair(entries: map<string, Json>, warnings: seq<string>)

  /** What becomes of a `dateTime` value: kept as it is, rewritten as a time, or replaced by the default time (with the warnings recorded). */
  datatype TimeFix = Unchanged | Rewritten(d: DateTime) | Defaulted(warnings: seq<string>)

  /** The `timeZone` default added when the dict has none. */
  function WithZone(e: map<string, Json>): (r: map<string, Json>)
    ensures r.Keys == e.Keys + {TIME_ZONE}
    ensures forall k | k in e :: k in r && r[k] == e[k]
    ensures TIME_ZONE !in e ==> r[TIME_ZONE] == Str(DEFAULT_TIMEZONE)
  {
    if TIME_ZONE in e then e else e[TIME_ZONE := Str(DEFAULT_TIMEZONE)]
  }

  /**
   * The decision `validate_event_data` takes on one `dateTime` value: a false
   * value is left alone; a string is parsed, a past year moved to the current
   * one, and the result written back; the default time with a warning replaces
   * text that does not parse, a 29 February whose year cannot be moved
   * (`replace` raises ValueError), and a value that is not a string at all
   * (`strptime` raises TypeError).
   */
  function ValidateFix(v: Json, f: TimeField, c: Clock): (fix: TimeFix)
    ensures fix.Unchanged? <==> !Truthy(v)
    ensures fix.Rewritten? ==> Valid(fix.d) && fix.d.year >= c.now.year
    ensures fix.Defaulted? ==> |fix.warnings| == 1
  {
    if !Truthy(v) then Unchanged
    else match v
      case Str(s) =>
        (match ParseDateTime(s)
         case None => Defaulted(["Could not parse " + FieldName(f) + " time: " + s])
         case Some(p) =>
           if p.year < c.now.year then
             match ReplaceYear(p, c.now.year)
             case None => Defaulted(["Error parsing " + FieldName(f) + " time: " + DAY_OUT_OF_RANGE])
             case Some(q) => Rewritten(q)
           else Rewritten(p))
      case other => Defaulted(["Error parsing " + FieldName(f) + " time: strptime() argument 1 must be str, not " + TypeName(other)])
  }

  /** The text a decision writes: the rewritten time written out, or the default text. */
  function WrittenText(fix: TimeFix, f: TimeField, c: Clock): string
    requires fix.Rewritten? ==> Valid(fix.d)
  {
    if fix.Rewritten? then Render(fix.d) else DefaultText(f, c)
  }

  /** The entries once the decision on `dateTime` is carried out. */
  function ApplyFix(e: map<string, Json>, fix: TimeFix, f: TimeField, c: Clock): (r: map<string, Json>)
    requires fix.Rewritten? ==> Valid(fix.d)
    ensures r.Keys == e.Keys + (if fix.Unchanged? then {} else {DATE_TIME})
    ensures forall k | k in e && k != DATE_TIME :: k in r && r[k] == e[k]
    ensures fix.Unchanged? ==> r == e
    ensures fix.Defaulted? ==> r[DATE_TIME] == Str(DefaultText(f, c))
  {
    if fix.Unchanged? then e else e[DATE_TIME := Str(WrittenText(fix, f, c))]
  }

  /** The `dateTime` of a dict, when it holds a string, read by `parse_datetime`. */
  function ReadBack(e: map<string, Json>): Option<DateTime>
  {
    if DATE_TIME in e && e[DATE_TIME].Str? then ParseDateTime(e[DATE_TIME].s) else None
  }

  /** A rewritten time is written as text that reads back as that time. */
  lemma ApplyFixReadsBack(e: map<string, Json>, d: DateTime, f: TimeField, c: Clock)
    requires Valid(d)
    ensures ReadBack(ApplyFix(e, Rewritten(d), f, c)) == Some(d)
  {
    RenderReadsBack(d);
  }

  /** A written time read back is decided to be rewritten as itself. */
  lemma ValidateFixOfRendered(d: DateTime, f: TimeField, c: Clock)
    requires Valid(d) && d.year >= c.now.year
    ensures ValidateFix(Str(Render(d)), f, c) == Rewritten(d)
  {
    RenderReadsBack(d);
  }

  /** What `validate_event_data` does to one time dict that is present: the zone default, then the decision on `dateTime`. */
  function RepairTimeDict(e: map<string, Json>, f: TimeField, c: Clock): (r: TimeRepair)
    ensures r.entries.Keys == e.Keys + {TIME_ZONE}
    ensures forall k | k in e && k != DATE_TIME :: r.entries[k] == e[k]
    ensures TIME_ZONE !in e ==> r.entries[TIME_ZONE] == Str(DEFAULT_TIMEZONE)
    ensures |r.warnings| <= 1
  {
    var e1 := WithZone(e);
    var fix := if DATE_TIME in e1 then ValidateFix(e1[DATE_TIME], f, c) else Unchanged;
    TimeRepair(ApplyFix(e1, fix, f, c), if fix.Defaulted? then fix.warnings else [])
  }

  /** A missing or false `dateTime` is left as it is, without a warning. */
  lemma RepairLeavesAbsentTimeAlone(e: map<string, Json>, f: TimeField, c: Clock)
    requires DATE_TIME !in e || !Truthy(e[DATE_TIME])
    ensures RepairTimeDict(e, f, c) == TimeRepair(WithZone(e), [])
  {
  }

  /**
   * Every present, true `dateTime` is left as text: a time in the current
   * year or later that `parse_datetime` reads back, or the default text.
   */
  lemma RepairWritesCurrentTime(e: map<string, Json>, f: TimeField, c: Clock)
    requires DATE_TIME in e && Truthy(e[DATE_TIME])
    ensures var r := RepairTimeDict(e, f, c).entries;
      || r[DATE_TIME] == Str(DefaultText(f, c))
      || (ReadBack(r).Some? && ReadBack(r).value.year >= c.now.year)
    ensures ClockOk(c) ==>
      var r := RepairTimeDict(e, f, c).entries;
      ReadBack(r).Some? && ReadBack(r).value.year >= c.now.year
  {
    var e1 := WithZone(e);
    var fix := ValidateFix(e1[DATE_TIME], f, c);
    if fix.Rewritten? {
      ApplyFixReadsBack(e1, fix.d, f, c);
    }
  }

  /** A time that parses and is not in the past keeps its date and time of day. */
  lemma RepairKeepsCurrentTimes(e: map<string, Json>, f: TimeField, c: Clock, p: DateTime)
    requires DATE_TIME in e && e[DATE_TIME].Str? && ParseDateTime(e[DATE_TIME].s) == Some(p)
    requires p.year >= c.now.year
    ensures ReadBack(RepairTimeDict(e, f, c).entries) == Some(p)
    ensures RepairTimeDict(e, f, c).warnings == []
  {
    var e1 := WithZone(e);
    assert ValidateFix(e1[DATE_TIME], f, c) == Rewritten(p);
    ApplyFixReadsBack(e1, p, f, c);
  }

  /** A past year becomes the current year; month, day and time of day stay, except for 29 February. */
  lemma RepairMovesPastYear(e: map<string, Json>, f: TimeField, c: Clock, p: DateTime)
    requires Valid(c.now)
    requires DATE_TIME in e && e[DATE_TIME].Str? && ParseDateTime(e[DATE_TIME].s) == Some(p)
    requires p.year < c.now.year
    ensures !(p.month == 2 && p.day == 29 && !IsLeapYear(c.now.year)) ==>
      ReadBack(RepairTimeDict(e, f, c).entries) == Some(p.(year := c.now.year)) && RepairTimeDict(e, f, c).warnings == []
    ensures p.month == 2 && p.day == 29 && !IsLeapYear(c.now.year) ==>
      RepairTimeDict(e, f, c).entries[DATE_TIME] == Str(DefaultText(f, c)) &&
      RepairTimeDict(e, f, c).warnings == ["Error parsing " + FieldName(f) + " time: " + DAY_OUT_OF_RANGE]
  {
    var e1 := WithZone(e);
    if p.month == 2 && p.day == 29 && !IsLeapYear(c.now.year) {
      assert ValidateFix(e1[DATE_TIME], f, c) == Defaulted(["Error parsing " + FieldName(f) + " time: " + DAY_OUT_OF_RANGE]);
    } else {
      assert ValidateFix(e1[DATE_TIME], f, c) == Rewritten(p.(year := c.now.year));
      ApplyFixReadsBack(e1, p.(year := c.now.year), f, c);
    }
  }

  /** Text that does not parse is replaced by the default text, with a warning naming the text. */
  lemma RepairReplacesUnparsableText(e: map<string, Json>, f: TimeField, c: Clock)
    requires DATE_TIME in e && e[DATE_TIME].Str? && e[DATE_TIME].s != "" && ParseDateTime(e[DATE_TIME].s).None?
    ensures RepairTimeDict(e, f, c).entries[DATE_TIME] == Str(DefaultText(f, c))
    ensures RepairTimeDict(e, f, c).warnings == ["Could not parse " + FieldName(f) + " time: " + e[DATE_TIME].s]
  {
  }

  /** A true value that is not a string makes `strptime` raise TypeError: default text and a warning naming its type. */
  lemma RepairReplacesNonString(e: map<string, Json>, f: TimeField, c: Clock)
    requires DATE_TIME in e && !e[DATE_TIME].Str? && Truthy(e[DATE_TIME])
    ensures RepairTimeDict(e, f, c).entries[DATE_TIME] == Str(DefaultText(f, c))
    ensures RepairTimeDict(e, f, c).warnings ==
      ["Error parsing " + FieldName(f) + " time: strptime() argument 1 must be str, not " + TypeName(e[DATE_TIME])]
  {
  }

  /** A repaired dict needs no further repair, whichever field it is repaired as next, on a clock that goes forward. */
  lemma RepairIdempotent(e: map<string, Json>, f: TimeField, g: TimeField, c: Clock)
    requires ClockOk(c)
    ensures var r := RepairTimeDict(e, f, c).entries;
      RepairTimeDict(r, g, c) == TimeRepair(r, [])
  {
    var e1 := WithZone(e);
    var fix := if DATE_TIME in e1 then ValidateFix(e1[DATE_TIME], f, c) else Unchanged;
    var r := ApplyFix(e1, fix, f, c);
    assert RepairTimeDict(e, f, c).entries == r;
    assert WithZone(r) == r;
    if fix.Unchanged? {
      var fix2 := if DATE_TIME in r then ValidateFix(r[DATE_TIME], g, c) else Unchanged;
      assert fix2.Unchanged?;
      assert RepairTimeDict(r, g, c) == TimeRepair(ApplyFix(r, fix2, g, c), []);
    } else {
      RepairKeepsWrittenTime(r, WrittenTime(fix, f, c), g, c);
    }
  }

  /** The time a decision writes, on a clock that goes forward: the rewritten time, or the time the default text reads as. */
  function WrittenTime(fix: TimeFix, f: TimeField, c: Clock): (d: DateTime)
    requires ClockOk(c) && !fix.Unchanged?
    requires fix.Rewritten? ==> Valid(fix.d)
    ensures Valid(d) && WrittenText(fix, f, c) == Render(d)
    ensures fix.Rewritten? ==> d == fix.d
    ensures fix.Defaulted? ==> d.year >= c.now.year
  {
    if fix.Rewritten? then fix.d else ParseDateTime(DefaultText(f, c)).value
  }

  /** A dict with a zone whose `dateTime` is a written time no earlier than this year needs no repair. */
  lemma RepairKeepsWrittenTime(r: map<string, Json>, t: DateTime, g: TimeField, c: Clock)
    requires Valid(t) && t.year >= c.now.year
    requires TIME_ZONE in r && DATE_TIME in r && r[DATE_TIME] == Str(Render(t))
    ensures RepairTimeDict(r, g, c) == TimeRepair(r, [])
  {
    ValidateFixOfRendered(t, g, c);
    assert WithZone(r) == r;
    assert ApplyFix(r, Rewritten(t), g, c) == r;
  }

  /**
   * The decision `format_event_time_indian` takes on one `dateTime` value: a
   * string that parses is rewritten (without moving its year), a false value
   * or text that does not parse is left alone, and a true value that is not a
   * string (`strptime` raises TypeError, caught by a bare `except`) becomes
   * the default time, without a warning.
   */
  function IndianFix(v: Json): (fix: TimeFix)
    ensures fix.Rewritten? ==> Valid(fix.d)
    ensures fix.Defaulted? ==> fix.warnings == []
  {
    if !Truthy(v) then Unchanged
    else match v
      case Str(s) =>
        (match ParseDateTime(s)
         case Some(p) => Rewritten(p)
         case None => Unchanged)
      case _ => Defaulted([])
  }

  /** `format_event_time_indian` on one time dict: the zone forced to IST, then the decision on `dateTime`. */
  function IndianTimeDict(e: map<string, Json>, f: TimeField, c: Clock): (r: map<string, Json>)
    ensures r.Keys == e.Keys + {TIME_ZONE}
    ensures r[TIME_ZONE] == Str(DEFAULT_TIMEZONE)
    ensures forall k | k in e && k != DATE_TIME && k != TIME_ZONE :: r[k] == e[k]
  {
    var e1 := e[TIME_ZONE := Str(DEFAULT_TIMEZONE)];
    ApplyFix(e1, if DATE_TIME in e1 then IndianFix(e1[DATE_TIME]) else Unchanged, f, c)
  }

  /** How the `dateTime` of a formatted dict relates to the original: the same time, unchanged, or the default. */
  lemma IndianKeepsParsedTime(e: map<string, Json>, f: TimeField, c: Clock)
    ensures DATE_TIME in e && e[DATE_TIME].Str? && ParseDateTime(e[DATE_TIME].s).Some? ==>
      ReadBack(IndianTimeDict(e, f, c)) == ParseDateTime(e[DATE_TIME].s)
    ensures DATE_TIME in e && e[DATE_TIME].Str? && ParseDateTime(e[DATE_TIME].s).None? ==>
      IndianTimeDict(e, f, c) == e[TIME_ZONE := Str(DEFAULT_TIMEZONE)]
    ensures DATE_TIME in e && !e[DATE_TIME].Str? && Truthy(e[DATE_TIME]) ==>
      IndianTimeDict(e, f, c) == e[TIME_ZONE := Str(DEFAULT_TIMEZONE)][DATE_TIME := Str(DefaultText(f, c))]
    ensures DATE_TIME !in e || !Truthy(e[DATE_TIME]) ==>
      IndianTimeDict(e, f, c) == e[TIME_ZONE := Str(DEFAULT_TIMEZONE)]
  {
    var e1 := e[TIME_ZONE := Str(DEFAULT_TIMEZONE)];
    if DATE_TIME in e && e[DATE_TIME].Str? && ParseDateTime(e[DATE_TIME].s).Some? {
      ApplyFixReadsBack(e1, ParseDateTime(e[DATE_TIME].s).value, f, c);
    }
  }

  /** A written time read back is rewritten as itself when formatting. */
  lemma IndianFixOfRendered(d: DateTime)
    requires Valid(d)
    ensures IndianFix(Str(Render(d))) == Rewritten(d)
  {
    RenderReadsBack(d);
  }

  /** Formatting twice is formatting once, whichever field it is formatted as next. */
  lemma IndianIdempotent(e: map<string, Json>, f: TimeField, g: TimeField, c: Clock)
    requires ClockOk(c)
    ensures IndianTimeDict(IndianTimeDict(e, f, c), g, c) == IndianTimeDict(e, f, c)
  {
    var e1 := e[TIME_ZONE := Str(DEFAULT_TIMEZONE)];
    var fix := if DATE_TIME in e1 then IndianFix(e1[DATE_TIME]) else Unchanged;
    var r := ApplyFix(e1, fix, f, c);
    assert IndianTimeDict(e, f, c) == r;
    assert r[TIME_ZONE := Str(DEFAULT_TIMEZONE)] == r;
    if fix.Unchanged? {
      assert r == e1;
      assert IndianTimeDict(r, g, c) == ApplyFix(r, fix, g, c);
    } else {
      IndianKeepsWrittenTime(r, WrittenTime(fix, f, c), g, c);
    }
  }

  /** After `validate_event_data`, `format_event_time_indian` changes nothing but the zone name. */
  lemma IndianAfterRepair(e: map<string, Json>, f: TimeField, g: TimeField, c: Clock)
    requires ClockOk(c)
    ensures var r := RepairTimeDict(e, f, c).entries;
      IndianTimeDict(r, g, c) == r[TIME_ZONE := Str(DEFAULT_TIMEZONE)]
  {
    var e1 := WithZone(e);
    var fix := if DATE_TIME in e1 then ValidateFix(e1[DATE_TIME], f, c) else Unchanged;
    var r := ApplyFix(e1, fix, f, c);
    assert RepairTimeDict(e, f, c).entries == r;
    if fix.Unchanged? {
      assert r == e1;
      var r1 := r[TIME_ZONE := Str(DEFAULT_TIMEZONE)];
      var fix2 := if DATE_TIME in r1 then IndianFix(r1[DATE_TIME]) else Unchanged;
      assert fix2.Unchanged?;
      assert IndianTimeDict(r, g, c) == ApplyFix(r1, fix2, g, c);
    } else {
      IndianKeepsWrittenTime(r, WrittenTime(fix, f, c), g, c);
    }
  }

  /** A dict whose `dateTime` is a written time is formatted by setting its zone to IST and nothing else. */
  lemma IndianKeepsWrittenTime(r: map<string, Json>, t: DateTime, g: TimeField, c: Clock)
    requires ClockOk(c) && Valid(t)
    requires DATE_TIME in r && r[DATE_TIME] == Str(Render(t))
    ensures IndianTimeDict(r, g, c) == r[TIME_ZONE := Str(DEFAULT_TIMEZONE)]
  {
    IndianFixOfRendered(t);
    var r1 := r[TIME_ZONE := Str(DEFAULT_TIMEZONE)];
    assert r1[DATE_TIME] == Str(Render(t));
    assert ApplyFix(r1, Rewritten(t), g, c) == r1;
  }

  /** An attendee given as a bare string becomes `{'email': attendee}`; anything else stays. */
  function Promote(attendee: Json): Json
  {
    if attendee.Str? then Obj(map[EMAIL := attendee]) else attendee
  }

  /** The attendees list after every bare string in it is promoted. */
  function PromoteAll(attendees: seq<Json>): seq<Json>
  {
    seq(|attendees|, i requires 0 <= i < |attendees| => Promote(attendees[i]))
  }

  /**
   * Promotion keeps the list's length and positions, leaves no bare string
   * behind, keeps each promoted string as the `email` of its entry, leaves
   * every other entry as it was, and has nothing left to do a second time.
   */
  lemma PromoteAllMeaning(attendees: seq<Json>)
    ensures var r := PromoteAll(attendees);
      && |r| == |attendees|
      && (forall i | 0 <= i < |r| :: !r[i].Str?)
      && (forall i | 0 <= i < |r| && attendees[i].Str? :: r[i].Obj? && r[i].fields == map[EMAIL := attendees[i]])
      && (forall i | 0 <= i < |r| && !attendees[i].Str? :: r[i] == attendees[i])
      && PromoteAll(r) == r
  {
    var r := PromoteAll(attendees);
    assert PromoteAll(r) == r by {
      forall i | 0 <= i < |r| ensures PromoteAll(r)[i] == r[i] {
        assert !r[i].Str?;
      }
    }
  }

  /** `validated_event['attendees'][i] = {'email': attendee}` for every bare string, in place. */
  method PromoteAttendees(attendees: JsonList)
    modifies attendees
    ensures attendees.items == PromoteAll(old(attendees.items))
  {
    var i := 0;
    while i < |attendees.items|
      invariant 0 <= i <= |attendees.items| == |old(attendees.items)|
      invariant forall j | 0 <= j < i :: attendees.items[j] == Promote(old(attendees.items)[j])
      invariant forall j | i <= j < |attendees.items| :: attendees.items[j] == old(attendees.items)[j]
    {
      if attendees.items[i].Str? {
        attendees.items := attendees.items[i := Obj(map[EMAIL := attendees.items[i]])];
      }
      i := i + 1;
    }
  }

  /** The result of `validate_event_data`: the validated event and the parsing warnings. */
  datatype Validation = Validation(event: map<string, Json>, warnings: seq<string>)

  /** A missing or false `summary` becomes "Untitled Event". */
  function WithSummary(event: map<string, Json>): map<string, Json>
  {
    if SUMMARY in event && Truthy(event[SUMMARY]) then event else event[SUMMARY := Str(UNTITLED_EVENT)]
  }

  /** String attendees promoted, when `attendees` is a list. */
  function WithAttendees(event: map<string, Json>): map<string, Json>
  {
    if ATTENDEES in event && event[ATTENDEES].Arr? then event[ATTENDEES := Arr(PromoteAll(event[ATTENDEES].items))] else event
  }

  /** What one time field becomes: a default dict when missing, the repaired dict when a dict, itself otherwise. */
  function ValidatedTime(event: map<string, Json>, f: TimeField, c: Clock): Json
  {
    var key := FieldName(f);
    if key !in event then Obj(DefaultTimeEntries(f, c))
    else if event[key].Obj? then Obj(RepairTimeDict(event[key].fields, f, c).entries)
    else event[key]
  }

  /** The warnings the repair of one time field produces. */
  function FieldWarnings(event: map<string, Json>, f: TimeField, c: Clock): seq<string>
  {
    if FieldName(f) in event && event[FieldName(f)].Obj? then RepairTimeDict(event[FieldName(f)].fields, f, c).warnings else []
  }

  /** The event with its summary filled in, `start` and `end` set to the given values, and its attendees promoted. */
  function Assemble(event: map<string, Json>, start: Json, end: Json): map<string, Json>
  {
    WithAttendees(WithSummary(event)[START := start][END := end])
  }

  /**
   * `validate_event_data` on an event whose values are plain JSON values (no
   * object is shared): each pass of the loop reads only its own field, so
   * the two passes are independent.
   */
  function ValidateEvent(event: map<string, Json>, c: Clock): Validation
  {
    Validation(Assemble(event, ValidatedTime(event, Start, c), ValidatedTime(event, End, c)),
               FieldWarnings(event, Start, c) + FieldWarnings(event, End, c))
  }

  /**
   * The assembled event has a true summary, the given start and end, and
   * the promoted attendees; it drops no key and changes no other value.
   */
  lemma AssembleMeaning(event: map<string, Json>, start: Json, end: Json)
    ensures var r := Assemble(event, start, end);
      && r.Keys == event.Keys + {SUMMARY, START, END}
      && (forall k | k in event && k != SUMMARY && k != START && k != END && k != ATTENDEES :: r[k] == event[k])
      && Truthy(r[SUMMARY])
      && r[SUMMARY] == (if SUMMARY in event && Truthy(event[SUMMARY]) then event[SUMMARY] else Str(UNTITLED_EVENT))
      && r[START] == start && r[END] == end
      && (ATTENDEES in event && event[ATTENDEES].Arr? ==> r[ATTENDEES] == Arr(PromoteAll(event[ATTENDEES].items)))
      && (ATTENDEES in event && !event[ATTENDEES].Arr? ==> r[ATTENDEES] == event[ATTENDEES])
  {
    assert START != SUMMARY && END != SUMMARY && START != END && ATTENDEES != START && ATTENDEES != END && ATTENDEES != SUMMARY;
  }

  /**
   * What `validate_event_data` makes of an event: a true summary (the given
   * one when it is true), a start and an end, each what its own repair makes
   * of it, the attendees promoted and every other key kept; the warnings
   * are those of the start, then those of the end, at most two in all.
   */
  lemma ValidateEventMeaning(event: map<string, Json>, c: Clock)
    requires ClockOk(c)
    ensures var r := ValidateEvent(event, c);
      && r.event.Keys == event.Keys + {SUMMARY, START, END}
      && (forall k | k in event && k != SUMMARY && k != START && k != END && k != ATTENDEES :: r.event[k] == event[k])
      && Truthy(r.event[SUMMARY])
      && r.event[SUMMARY] == (if SUMMARY in event && Truthy(event[SUMMARY]) then event[SUMMARY] else Str(UNTITLED_EVENT))
      && r.event[START] == ValidatedTime(event, Start, c)
      && r.event[END] == ValidatedTime(event, End, c)
      && (ATTENDEES in event && event[ATTENDEES].Arr? ==> r.event[ATTENDEES] == Arr(PromoteAll(event[ATTENDEES].items)))
      && (ATTENDEES in event && !event[ATTENDEES].Arr? ==> r.event[ATTENDEES] == event[ATTENDEES])
      && r.warnings == FieldWarnings(event, Start, c) + FieldWarnings(event, End, c)
      && |r.warnings| <= 2
  {
    AssembleMeaning(event, ValidatedTime(event, Start, c), ValidatedTime(event, End, c));
  }

  /** A missing time field is synthesised as the default dict, without a warning. */
  lemma MissingTimeDefaulted(event: map<string, Json>, f: TimeField, c: Clock)
    requires ClockOk(c) && FieldName(f) !in event
    ensures ValidatedTime(event, f, c) == Obj(map[DATE_TIME := Str(DefaultText(f, c)), TIME_ZONE := Str(DEFAULT_TIMEZONE)])
    ensures FieldWarnings(event, f, c) == []
  {
  }

  /** A default time dict needs no repair. */
  lemma RepairKeepsDefault(f: TimeField, g: TimeField, c: Clock)
    requires ClockOk(c)
    ensures RepairTimeDict(DefaultTimeEntries(f, c), g, c) == TimeRepair(DefaultTimeEntries(f, c), [])
  {
    var e := DefaultTimeEntries(f, c);
    var d := WrittenTime(Defaulted([]), f, c);
    ValidateFixOfRendered(d, g, c);
    assert WithZone(e) == e;
    assert e[DATE_TIME := Str(Render(d))] == e;
  }

  /** A validated time field validates to itself, without a warning. */
  lemma ValidatedTimeStable(event: map<string, Json>, other: map<string, Json>, f: TimeField, c: Clock)
    requires ClockOk(c)
    requires FieldName(f) in other && other[FieldName(f)] == ValidatedTime(event, f, c)
    ensures ValidatedTime(other, f, c) == other[FieldName(f)]
    ensures FieldWarnings(other, f, c) == []
  {
    var key := FieldName(f);
    if key !in event {
      RepairKeepsDefault(f, f, c);
    } else if event[key].Obj? {
      RepairIdempotent(event[key].fields, f, f, c);
    }
  }

  /**
   * An event with a true summary, start and end fields that validate to
   * themselves without a warning, and no string attendee validates to itself.
   */
  lemma ValidatedEventStable(r: map<string, Json>, c: Clock)
    requires ClockOk(c)
    requires SUMMARY in r && Truthy(r[SUMMARY]) && START in r && END in r
    requires ValidatedTime(r, Start, c) == r[START] && FieldWarnings(r, Start, c) == []
    requires ValidatedTime(r, End, c) == r[END] && FieldWarnings(r, End, c) == []
    requires ATTENDEES in r && r[ATTENDEES].Arr? ==> PromoteAll(r[ATTENDEES].items) == r[ATTENDEES].items
    ensures ValidateEvent(r, c) == Validation(r, [])
  {
    AssembleMeaning(r, r[START], r[END]);
    assert Assemble(r, r[START], r[END]) == r;
  }

  /** The validated event has a true summary, a start and an end. */
  lemma ValidatedHasFields(event: map<string, Json>, r: map<string, Json>, c: Clock)
    requires ClockOk(c) && r == ValidateEvent(event, c).event
    ensures SUMMARY in r && Truthy(r[SUMMARY]) && START in r && END in r
  {
    ValidateEventMeaning(event, c);
  }

  /** Each time field of the validated event validates to itself without a warning. */
  lemma ValidatedFieldStable(event: map<string, Json>, r: map<string, Json>, f: TimeField, c: Clock)
    requires ClockOk(c) && r == ValidateEvent(event, c).event
    ensures FieldName(f) in r && ValidatedTime(r, f, c) == r[FieldName(f)] && FieldWarnings(r, f, c) == []
  {
    ValidateEventMeaning(event, c);
    ValidatedTimeStable(event, r, f, c);
  }

  /** The validated event holds no string attendee. */
  lemma ValidatedAttendeesStable(event: map<string, Json>, r: map<string, Json>, c: Clock)
    requires ClockOk(c) && r == ValidateEvent(event, c).event
    ensures ATTENDEES in r && r[ATTENDEES].Arr? ==> PromoteAll(r[ATTENDEES].items) == r[ATTENDEES].items
  {
    ValidateEventMeaning(event, c);
    if ATTENDEES in r && r[ATTENDEES].Arr? && ATTENDEES in event && event[ATTENDEES].Arr? {
      PromoteAllMeaning(event[ATTENDEES].items);
    }
  }

  /** Validating a validated event changes nothing and warns about nothing. */
  lemma ValidateEventIdempotent(event: map<string, Json>, c: Clock)
    requires ClockOk(c)
    ensures var r := ValidateEvent(event, c).event;
      ValidateEvent(r, c) == Validation(r, [])
  {
    var r := ValidateEvent(event, c).event;
    ValidatedHasFields(event, r, c);
    ValidatedFieldStable(event, r, Start, c);
    ValidatedFieldStable(event, r, End, c);
    ValidatedAttendeesStable(event, r, c);
    ValidatedEventStable(r, c);
  }

  /** What one time field becomes when formatted (when it is present): the dict set to IST, or the default dict. */
  function FormattedTime(event: map<string, Json>, f: TimeField, c: Clock): Json
  {
    var key := FieldName(f);
    if key in event && event[key].Obj? then Obj(IndianTimeDict(event[key].fields, f, c)) else Obj(DefaultTimeEntries(f, c))
  }

  /** The event with the given value under `key`, when the event has that key. */
  function ReplaceIfPresent(event: map<string, Json>, key: string, v: Json): map<string, Json>
  {
    if key in event then event[key := v] else event
  }

  /** `format_event_time_indian` on an event whose values are plain JSON values (no object is shared). */
  function FormatEventIndian(event: map<string, Json>, c: Clock): map<string, Json>
  {
    ReplaceIfPresent(ReplaceIfPresent(event, START, FormattedTime(event, Start, c)), END, FormattedTime(event, End, c))
  }

  /** Replacing the start and end adds no key and changes no other value. */
  lemma ReplaceTimesMeaning(event: map<string, Json>, start: Json, end: Json)
    ensures var r := ReplaceIfPresent(ReplaceIfPresent(event, START, start), END, end);
      && r.Keys == event.Keys
      && (forall k | k in event && k != START && k != END :: r[k] == event[k])
      && (START in event ==> r[START] == start)
      && (END in event ==> r[END] == end)
  {
    assert START != END;
  }

  /**
   * Formatting adds no key and touches only `start` and `end`; each of those,
   * when present, becomes a dict whose zone is IST.
   */
  lemma FormatEventMeaning(event: map<string, Json>, c: Clock)
    requires ClockOk(c)
    ensures var r := FormatEventIndian(event, c);
      && r.Keys == event.Keys
      && (forall k | k in event && k != START && k != END :: r[k] == event[k])
      && (START in event ==> r[START] == FormattedTime(event, Start, c))
      && (END in event ==> r[END] == FormattedTime(event, End, c))
  {
    ReplaceTimesMeaning(event, FormattedTime(event, Start, c), FormattedTime(event, End, c));
  }

  /** A formatted time field is a dict whose zone is IST. */
  lemma FormattedTimeIsIst(event: map<string, Json>, f: TimeField, c: Clock)
    requires ClockOk(c)
    ensures FormattedTime(event, f, c).Obj?
    ensures FormattedTime(event, f, c).fields[TIME_ZONE] == Str(DEFAULT_TIMEZONE)
  {
  }

  /** A default time dict is already formatted. */
  lemma IndianKeepsDefault(f: TimeField, g: TimeField, c: Clock)
    requires ClockOk(c)
    ensures IndianTimeDict(DefaultTimeEntries(f, c), g, c) == DefaultTimeEntries(f, c)
  {
    var e := DefaultTimeEntries(f, c);
    var d := WrittenTime(Defaulted([]), f, c);
    IndianFixOfRendered(d);
    assert e[TIME_ZONE := Str(DEFAULT_TIMEZONE)] == e;
    assert e[DATE_TIME := Str(Render(d))] == e;
  }

  /** A formatted time field formats to itself. */
  lemma FormattedTimeStable(event: map<string, Json>, other: map<string, Json>, f: TimeField, c: Clock)
    requires ClockOk(c)
    requires FieldName(f) in other && other[FieldName(f)] == FormattedTime(event, f, c)
    ensures FormattedTime(other, f, c) == other[FieldName(f)]
  {
    var key := FieldName(f);
    if key in event && event[key].Obj? {
      IndianIdempotent(event[key].fields, f, f, c);
    } else {
      IndianKeepsDefault(f, f, c);
    }
  }

  /** An event whose present start and end format to themselves is already formatted. */
  lemma FormattedEventStable(r: map<string, Json>, c: Clock)
    requires ClockOk(c)
    requires START in r ==> FormattedTime(r, Start, c) == r[START]
    requires END in r ==> FormattedTime(r, End, c) == r[END]
    ensures FormatEventIndian(r, c) == r
  {
    ReplaceTimesMeaning(r, FormattedTime(r, Start, c), FormattedTime(r, End, c));
  }

  /** Formatting twice is formatting once. */
  lemma FormatEventIdempotent(event: map<string, Json>, c: Clock)
    requires ClockOk(c)
    ensures FormatEventIndian(FormatEventIndian(event, c), c) == FormatEventIndian(event, c)
  {
    FormatEventMeaning(event, c);
    var r := FormatEventIndian(event, c);
    if START in r { FormattedTimeStable(event, r, Start, c); }
    if END in r { FormattedTimeStable(event, r, End, c); }
    FormattedEventStable(r, c);
  }

  /** A validated time field, when a dict, formats to itself with the zone name set to IST. */
  lemma FormatValidatedTime(event: map<string, Json>, other: map<string, Json>, f: TimeField, c: Clock)
    requires ClockOk(c)
    requires FieldName(f) in other && other[FieldName(f)] == ValidatedTime(event, f, c) && other[FieldName(f)].Obj?
    ensures FormattedTime(other, f, c) == Obj(other[FieldName(f)].fields[TIME_ZONE := Str(DEFAULT_TIMEZONE)])
  {
    var key := FieldName(f);
    if key !in event {
      IndianKeepsDefault(f, f, c);
      assert DefaultTimeEntries(f, c)[TIME_ZONE := Str(DEFAULT_TIMEZONE)] == DefaultTimeEntries(f, c);
    } else {
      IndianAfterRepair(event[key].fields, f, f, c);
    }
  }

  /** After `validate_event_data`, `format_event_time_indian` changes nothing but the zone names of the start and end dicts. */
  lemma FormatAfterValidate(event: map<string, Json>, c: Clock)
    requires ClockOk(c)
    ensures var v := ValidateEvent(event, c).event;
      var r := FormatEventIndian(v, c);
      && r.Keys == v.Keys
      && (forall k | k in v && k != START && k != END :: r[k] == v[k])
      && (v[START].Obj? ==> r[START] == Obj(v[START].fields[TIME_ZONE := Str(DEFAULT_TIMEZONE)]))
      && (v[END].Obj? ==> r[END] == Obj(v[END].fields[TIME_ZONE := Str(DEFAULT_TIMEZONE)]))
  {
    ValidateEventMeaning(event, c);
    var v := ValidateEvent(event, c).event;
    FormatEventMeaning(v, c);
    if v[START].Obj? { FormatValidatedTime(event, v, Start, c); }
    if v[END].Obj? { FormatValidatedTime(event, v, End, c); }
  }

  /**
   * One pass of the time-field loop of `validate_event_data` on the
   * (shallow-copied) event object: a missing field gets a fresh default dict
   * in this event only, while a dict is repaired in place, so that the
   * repair shows through every event, copy or original, that refers to it.
   */
  method ValidateTimeField(event: EventRecord, f: TimeField, c: Clock) returns (warnings: seq<string>)
    modifies event, DictAt(event.fields, FieldName(f))
    ensures FieldName(f) in old(event.fields) ==> event.fields == old(event.fields)
    ensures FieldName(f) !in old(event.fields) ==>
      FieldName(f) in event.fields && event.fields == old(event.fields)[FieldName(f) := event.fields[FieldName(f)]] &&
      event.fields[FieldName(f)].DictRef? && fresh(event.fields[FieldName(f)].d) &&
      event.fields[FieldName(f)].d.entries == DefaultTimeEntries(f, c) && warnings == []
    ensures FieldName(f) in old(event.fields) && old(event.fields[FieldName(f)]).DictRef? ==>
      var d := old(event.fields[FieldName(f)]).d;
      var repair := RepairTimeDict(old(d.entries), f, c);
      d.entries == repair.entries && warnings == repair.warnings
    ensures FieldName(f) in old(event.fields) && !old(event.fields[FieldName(f)]).DictRef? ==> warnings == []
  {
    var key := FieldName(f);
    if key !in event.fields {
      var d := new JsonDict(DefaultTimeEntries(f, c));
      event.fields := event.fields[key := DictRef(d)];
      warnings := [];
    } else if event.fields[key].DictRef? {
      var d := event.fields[key].d;
      var repair := RepairTimeDict(d.entries, f, c);
      d.entries := repair.entries;
      warnings := repair.warnings;
    } else {
      warnings := [];
    }
  }

  /**
   * The top level of an event after the summary step: a missing or false
   * `summary` becomes "Untitled Event", and nothing else changes.
   */
  function WithSummarySlot(fields: map<string, Slot>): (r: map<string, Slot>)
    reads if SUMMARY in fields then fields[SUMMARY].Objects() else {}
    ensures r.Keys == fields.Keys + {SUMMARY}
    ensures forall k | k in fields && k != SUMMARY :: r[k] == fields[k]
    ensures SUMMARY in fields && SlotTruthy(fields[SUMMARY]) ==> r[SUMMARY] == fields[SUMMARY]
    ensures !(SUMMARY in fields && SlotTruthy(fields[SUMMARY])) ==> r[SUMMARY] == Scalar(Str(UNTITLED_EVENT))
  {
    if SUMMARY in fields && SlotTruthy(fields[SUMMARY]) then fields else fields[SUMMARY := Scalar(Str(UNTITLED_EVENT))]
  }

  /** The summary step of `validate_event_data` on the event object: a missing or false `summary` becomes "Untitled Event". */
  method DefaultSummary(event: EventRecord)
    modifies event
    ensures event.fields == old(WithSummarySlot(event.fields))
  {
    if SUMMARY !in event.fields || !SlotTruthy(event.fields[SUMMARY]) {
      event.fields := event.fields[SUMMARY := Scalar(Str(UNTITLED_EVENT))];
    }
  }

  /**
   * One pass of the time-field loop of `format_event_time_indian` on the
   * (shallow-copied) event object: a dict is set to IST in place, a value
   * that is not a dict is replaced, in this event only, by a fresh default
   * dict, and a missing field stays missing.
   */
  method IndianTimeField(event: EventRecord, f: TimeField, c: Clock)
    modifies event, DictAt(event.fields, FieldName(f))
    ensures !(FieldName(f) in old(event.fields) && !old(event.fields[FieldName(f)]).DictRef?) ==>
      event.fields == old(event.fields)
    ensures FieldName(f) in old(event.fields) && old(event.fields[FieldName(f)]).DictRef? ==>
      var d := old(event.fields[FieldName(f)]).d;
      d.entries == IndianTimeDict(old(d.entries), f, c)
    ensures FieldName(f) in old(event.fields) && !old(event.fields[FieldName(f)]).DictRef? ==>
      FieldName(f) in event.fields && event.fields == old(event.fields)[FieldName(f) := event.fields[FieldName(f)]] &&
      event.fields[FieldName(f)].DictRef? && fresh(event.fields[FieldName(f)].d) &&
      event.fields[FieldName(f)].d.entries == DefaultTimeEntries(f, c)
  {
    var key := FieldName(f);
    if key in event.fields {
      if event.fields[key].DictRef? {
        var d := event.fields[key].d;
        d.entries := IndianTimeDict(d.entries, f, c);
      } else {
        var d := new JsonDict(DefaultTimeEntries(f, c));
        event.fields := event.fields[key := DictRef(d)];
      }
    }
  }

  /** The key holds a reference to a dict object. */
  predicate HoldsDict(fields: map<string, Slot>, key: string)
  {
    key in fields && fields[key].DictRef?
  }

  /** The entries of the dict object the key refers to (none when it refers to no dict). */
  function EntriesAt(fields: map<string, Slot>, key: string): map<string, Json>
    reads DictAt(fields, key)
  {
    if HoldsDict(fields, key) then fields[key].d.entries else map[]
  }

  /** `start` and `end` refer to one and the same dict object. */
  predicate SharedTimes(fields: map<string, Slot>)
  {
    HoldsDict(fields, START) && HoldsDict(fields, END) && fields[START].d == fields[END].d
  }

  /** The time field a key of the loop names. */
  function TimeFieldOf(key: string): TimeField
  {
    if key == START then Start else End
  }

  /**
   * The entries the end dict holds when the second pass of a loop over
   * `['start', 'end']` reaches it: those the start pass left (`startAfter`)
   * when `start` and `end` share the dict, its own otherwise.
   */
  function EndSeen(shared: bool, startAfter: map<string, Json>, endEntries: map<string, Json>): map<string, Json>
  {
    if shared then startAfter else endEntries
  }

  /**
   * What the time-field loop of `validate_event_data` did to the dicts that
   * `start` and `end` referred to in `before`, whose entries were
   * `startEntries` and `endEntries`: each dict now holds its repair, a dict
   * the two share holds the end repair of the start repair, and `warnings`
   * are the repairs' warnings in loop order.
   */
  predicate TimesRepaired(before: map<string, Slot>, startEntries: map<string, Json>, endEntries: map<string, Json>,
                          warnings: seq<string>, c: Clock)
    reads DictAt(before, START), DictAt(before, END)
  {
    && (HoldsDict(before, START) && !SharedTimes(before) ==>
          EntriesAt(before, START) == RepairTimeDict(startEntries, Start, c).entries)
    && (HoldsDict(before, END) ==>
          EntriesAt(before, END) == RepairTimeDict(EndSeen(SharedTimes(before), RepairTimeDict(startEntries, Start, c).entries, endEntries), End, c).entries)
    && warnings ==
         (if HoldsDict(before, START) then RepairTimeDict(startEntries, Start, c).warnings else []) +
         (if HoldsDict(before, END) then RepairTimeDict(EndSeen(SharedTimes(before), RepairTimeDict(startEntries, Start, c).entries, endEntries), End, c).warnings else [])
  }

  /**
   * What the time-field loop of `format_event_time_indian` did to the dicts
   * that `start` and `end` referred to in `before`, whose entries were
   * `startEntries` and `endEntries`: each dict is now set to IST, and a dict
   * the two share has been set to IST as the start, then as the end.
   */
  predicate TimesSetToIst(before: map<string, Slot>, startEntries: map<string, Json>, endEntries: map<string, Json>, c: Clock)
    reads DictAt(before, START), DictAt(before, END)
  {
    && (HoldsDict(before, START) && !SharedTimes(before) ==>
          EntriesAt(before, START) == IndianTimeDict(startEntries, Start, c))
    && (HoldsDict(before, END) ==>
          EntriesAt(before, END) == IndianTimeDict(EndSeen(SharedTimes(before), IndianTimeDict(startEntries, Start, c), endEntries), End, c))
  }

  /**
   * The time-field loop of `validate_event_data` agrees with `ValidateEvent`
   * on the values the event held before it (`event`): unshared dicts hold
   * what `ValidatedTime` makes of them and the warnings are the same. A dict
   * that `start` and `end` share holds the start's repair, and only the start
   * pass warns.
   */
  lemma TimesRepairedAgrees(before: map<string, Slot>, event: map<string, Json>,
                            startEntries: map<string, Json>, endEntries: map<string, Json>, warnings: seq<string>, c: Clock)
    requires TimesRepaired(before, startEntries, endEntries, warnings, c)
    requires HoldsDict(before, START) ==> START in event && event[START] == Obj(startEntries)
    requires HoldsDict(before, END) ==> END in event && event[END] == Obj(endEntries)
    requires !HoldsDict(before, START) && START in event ==> !event[START].Obj?
    requires !HoldsDict(before, END) && END in event ==> !event[END].Obj?
    ensures !SharedTimes(before) ==>
      && (HoldsDict(before, START) ==> Obj(EntriesAt(before, START)) == ValidatedTime(event, Start, c))
      && (HoldsDict(before, END) ==> Obj(EntriesAt(before, END)) == ValidatedTime(event, End, c))
      && warnings == ValidateEvent(event, c).warnings
    ensures SharedTimes(before) && ClockOk(c) ==>
      && Obj(EntriesAt(before, START)) == ValidatedTime(event, Start, c)
      && warnings == FieldWarnings(event, Start, c)
  {
    if SharedTimes(before) && ClockOk(c) {
      RepairIdempotent(startEntries, Start, End, c);
    }
  }

  /**
   * The time-field loop of `format_event_time_indian` agrees with
   * `FormatEventIndian` on the values the event held before it (`event`):
   * unshared dicts hold what `FormattedTime` makes of them. A dict that
   * `start` and `end` share holds what formatting the start makes of it.
   */
  lemma TimesSetToIstAgrees(before: map<string, Slot>, event: map<string, Json>,
                            startEntries: map<string, Json>, endEntries: map<string, Json>, c: Clock)
    requires TimesSetToIst(before, startEntries, endEntries, c)
    requires HoldsDict(before, START) ==> START in event && event[START] == Obj(startEntries)
    requires HoldsDict(before, END) ==> END in event && event[END] == Obj(endEntries)
    ensures !SharedTimes(before) ==>
      && (HoldsDict(before, START) ==> Obj(EntriesAt(before, START)) == FormattedTime(event, Start, c))
      && (HoldsDict(before, END) ==> Obj(EntriesAt(before, END)) == FormattedTime(event, End, c))
    ensures SharedTimes(before) && ClockOk(c) ==>
      Obj(EntriesAt(before, START)) == FormattedTime(event, Start, c)
  {
    if SharedTimes(before) && ClockOk(c) {
      IndianIdempotent(startEntries, Start, End, c);
    }
  }

  /**
   * The `for time_field in ['start', 'end']` loop of `validate_event_data` on
   * the copied event: a missing field gets a fresh default dict, a dict is
   * repaired in place (through every event that shares it), any other value
   * stays, and the warnings of both passes are collected. A dict that `start`
   * and `end` share is repaired as the start; the second pass finds nothing
   * left to repair.
   */
  method ValidateTimeFields(validated: EventRecord, c: Clock) returns (warnings: seq<string>)
    modifies validated, DictAt(validated.fields, START), DictAt(validated.fields, END)
    ensures validated.fields.Keys == old(validated.fields).Keys + {START, END}
    ensures forall k | k in old(validated.fields) :: validated.fields[k] == old(validated.fields)[k]
    ensures START !in old(validated.fields) ==>
      && validated.fields[START].DictRef? && fresh(validated.fields[START].d)
      && validated.fields[START].d.entries == DefaultTimeEntries(Start, c)
    ensures END !in old(validated.fields) ==>
      && validated.fields[END].DictRef? && fresh(validated.fields[END].d)
      && validated.fields[END].d.entries == DefaultTimeEntries(End, c)
    ensures TimesRepaired(old(validated.fields), old(EntriesAt(validated.fields, START)), old(EntriesAt(validated.fields, END)), warnings, c)
  {
    var w1 := ValidateTimeField(validated, Start, c);
    var w2 := ValidateTimeField(validated, End, c);
    warnings := w1 + w2;
  }

  /**
   * The time-field loop of `validate_event_data`, then its attendee step,
   * on the copied event: string attendees of a list are promoted in place.
   */
  method TimesAndAttendees(validated: EventRecord, c: Clock) returns (warnings: seq<string>)
    modifies validated, DictAt(validated.fields, START), DictAt(validated.fields, END), ListAt(validated.fields, ATTENDEES)
    ensures validated.fields.Keys == old(validated.fields).Keys + {START, END}
    ensures forall k | k in old(validated.fields) :: validated.fields[k] == old(validated.fields)[k]
    ensures START !in old(validated.fields) ==>
      && validated.fields[START].DictRef? && fresh(validated.fields[START].d)
      && validated.fields[START].d.entries == DefaultTimeEntries(Start, c)
    ensures END !in old(validated.fields) ==>
      && validated.fields[END].DictRef? && fresh(validated.fields[END].d)
      && validated.fields[END].d.entries == DefaultTimeEntries(End, c)
    ensures ATTENDEES in old(validated.fields) && old(validated.fields)[ATTENDEES].ListRef? ==>
      var l := old(validated.fields)[ATTENDEES].l; l.items == PromoteAll(old(l.items))
    ensures TimesRepaired(old(validated.fields), old(EntriesAt(validated.fields, START)), old(EntriesAt(validated.fields, END)), warnings, c)
  {
    warnings := ValidateTimeFields(validated, c);
    ghost var timed := validated.fields;
    if ATTENDEES in validated.fields && validated.fields[ATTENDEES].ListRef? {
      PromoteAttendees(validated.fields[ATTENDEES].l);
    }
    assert validated.fields == timed;
  }

  /**
   * Everything `validate_event_data` does to its copy of the event: the
   * summary step, then the time-field loop and the attendee step on the
   * summarised copy.
   */
  method ValidateCopy(validated: EventRecord, c: Clock) returns (warnings: seq<string>)
    modifies validated, DictAt(validated.fields, START), DictAt(validated.fields, END), ListAt(validated.fields, ATTENDEES)
    ensures validated.fields.Keys == old(WithSummarySlot(validated.fields)).Keys + {START, END}
    ensures forall k | k in old(WithSummarySlot(validated.fields)) :: validated.fields[k] == old(WithSummarySlot(validated.fields))[k]
    ensures validated.fields[SUMMARY] ==
      if SUMMARY in old(validated.fields) && old(SlotTruthy(validated.fields[SUMMARY])) then old(validated.fields)[SUMMARY] else Scalar(Str(UNTITLED_EVENT))
    ensures START !in old(WithSummarySlot(validated.fields)) ==>
      && validated.fields[START].DictRef? && fresh(validated.fields[START].d)
      && validated.fields[START].d.entries == DefaultTimeEntries(Start, c)
    ensures END !in old(WithSummarySlot(validated.fields)) ==>
      && validated.fields[END].DictRef? && fresh(validated.fields[END].d)
      && validated.fields[END].d.entries == DefaultTimeEntries(End, c)
    ensures ATTENDEES in old(WithSummarySlot(validated.fields)) && old(WithSummarySlot(validated.fields))[ATTENDEES].ListRef? ==>
      var l := old(WithSummarySlot(validated.fields))[ATTENDEES].l; l.items == PromoteAll(old(l.items))
    ensures TimesRepaired(old(WithSummarySlot(validated.fields)), old(EntriesAt(WithSummarySlot(validated.fields), START)), old(EntriesAt(WithSummarySlot(validated.fields), END)), warnings, c)
  {
    DefaultSummary(validated);
    warnings := TimesAndAttendees(validated, c);
  }

  /**
   * `validate_event_data` on the event object: a shallow copy of the event,
   * then the summary step, the time-field loop and the attendee step, all
   * applied to the copy. The caller's event keeps its own top level, but the
   * start and end dicts and the attendee list it shares with the copy are
   * updated in place.
   */
  method ValidateEventData(event: EventRecord, c: Clock) returns (validated: EventRecord, warnings: seq<string>)
    modifies DictAt(event.fields, START), DictAt(event.fields, END), ListAt(event.fields, ATTENDEES)
    ensures fresh(validated) && event.fields == old(event.fields)
    ensures validated.fields.Keys == old(WithSummarySlot(event.fields)).Keys + {START, END}
    ensures forall k | k in old(WithSummarySlot(event.fields)) :: validated.fields[k] == old(WithSummarySlot(event.fields))[k]
    ensures validated.fields[SUMMARY] ==
      if SUMMARY in old(event.fields) && old(SlotTruthy(event.fields[SUMMARY])) then old(event.fields)[SUMMARY] else Scalar(Str(UNTITLED_EVENT))
    ensures START !in old(WithSummarySlot(event.fields)) ==>
      && validated.fields[START].DictRef? && fresh(validated.fields[START].d)
      && validated.fields[START].d.entries == DefaultTimeEntries(Start, c)
    ensures END !in old(WithSummarySlot(event.fields)) ==>
      && validated.fields[END].DictRef? && fresh(validated.fields[END].d)
      && validated.fields[END].d.entries == DefaultTimeEntries(End, c)
    ensures ATTENDEES in old(WithSummarySlot(event.fields)) && old(WithSummarySlot(event.fields))[ATTENDEES].ListRef? ==>
      var l := old(WithSummarySlot(event.fields))[ATTENDEES].l; l.items == PromoteAll(old(l.items))
    ensures TimesRepaired(old(WithSummarySlot(event.fields)), old(EntriesAt(WithSummarySlot(event.fields), START)), old(EntriesAt(WithSummarySlot(event.fields), END)), warnings, c)
  {
    validated := event.Copy();
    warnings := ValidateCopy(validated, c);
  }

  /**
   * The `for time_field in ['start', 'end']` loop of `format_event_time_indian`
   * on the copied event, written out as its two passes: a dict is set to IST
   * in place (through every event that shares it), a value that is not a
   * dict is replaced by a fresh default dict, and a missing field stays
   * missing.
   */
  method IndianTimeFields(copy: EventRecord, c: Clock)
    modifies copy, DictAt(copy.fields, START), DictAt(copy.fields, END)
    ensures copy.fields.Keys == old(copy.fields).Keys
    ensures forall k | k in old(copy.fields) && !((k == START || k == END) && !old(copy.fields)[k].DictRef?) :: copy.fields[k] == old(copy.fields)[k]
    ensures START in old(copy.fields) && !old(copy.fields)[START].DictRef? ==>
      && copy.fields[START].DictRef? && fresh(copy.fields[START].d)
      && copy.fields[START].d.entries == DefaultTimeEntries(Start, c)
    ensures END in old(copy.fields) && !old(copy.fields)[END].DictRef? ==>
      && copy.fields[END].DictRef? && fresh(copy.fields[END].d)
      && copy.fields[END].d.entries == DefaultTimeEntries(End, c)
    ensures TimesSetToIst(old(copy.fields), old(EntriesAt(copy.fields, START)), old(EntriesAt(copy.fields, END)), c)
  {
    IndianTimeField(copy, Start, c);
    IndianTimeField(copy, End, c);
  }

  /**
   * `format_event_time_indian` on the event object: a shallow copy of the
   * event, then the time-field loop on the copy. The caller's event keeps its
   * own top level, but the start and end dicts it shares with the copy are
   * set to IST in place.
   */
  method FormatEventTimeIndian(event: EventRecord, c: Clock) returns (copy: EventRecord)
    modifies DictAt(event.fields, START), DictAt(event.fields, END)
    ensures fresh(copy) && event.fields == old(event.fields)
    ensures copy.fields.Keys == old(event.fields).Keys
    ensures forall k | k in old(event.fields) && !((k == START || k == END) && !old(event.fields)[k].DictRef?) :: copy.fields[k] == old(event.fields)[k]
    ensures START in old(event.fields) && !old(event.fields)[START].DictRef? ==>
      && copy.fields[START].DictRef? && fresh(copy.fields[START].d)
      && copy.fields[START].d.entries == DefaultTimeEntries(Start, c)
    ensures END in old(event.fields) && !old(event.fields)[END].DictRef? ==>
      && copy.fields[END].DictRef? && fresh(copy.fields[END].d)
      && copy.fields[END].d.entries == DefaultTimeEntries(End, c)
    ensures TimesSetToIst(old(event.fields), old(EntriesAt(event.fields, START)), old(EntriesAt(event.fields, END)), c)
  {
    copy := event.Copy();
    IndianTimeFields(copy, c);
  }
}
