/**
 * Python's naive `datetime` values as the model needs them: validity, the
 * proleptic Gregorian calendar, adding hours (`now + timedelta(hours=k)`),
 * `replace(year=...)`, and `strptime`/`strftime` over a restricted set of
 * directives.
 *
 * Directive grammar: `%Y` is exactly four digits, `%m %d %H %M %S` exactly two
 * (CPython also accepts one digit, and a space before a one-digit day), a
 * literal matches itself only (CPython lets one space match any run of white
 * space and compares letters ignoring case), and `%z` is `Z`, `+HH:MM`/`-HH:MM`
 * or `+HHMM`/`-HHMM` (CPython also accepts seconds and fractions). The parsed
 * offset is discarded, as `strftime('%Y-%m-%dT%H:%M:%S')` drops it.
 */
module DateTimes {
  import opened Wrappers
  import opened Text

  /** A naive date and time (microseconds are never printed by the model's formats, so they are left out). */
  datatype DateTime = DateTime(year: int, month: int, day: int, hour: int, minute: int, second: int)

  predicate IsLeapYear(y: int)
  {
    y % 4 == 0 && (y % 100 != 0 || y % 400 == 0)
  }

  function DaysInMonth(y: int, m: int): (n: int)
    requires 1 <= m <= 12
    ensures 28 <= n <= 31
  {
    if m == 2 then (if IsLeapYear(y) then 29 else 28)
    else if m == 4 || m == 6 || m == 9 || m == 11 then 30
    else 31
  }

  function DaysInYear(y: int): int
  {
    if IsLeapYear(y) then 366 else 365
  }

  /** The values Python's `datetime` constructor accepts. */
  predicate Valid(d: DateTime)
  {
    && 1 <= d.year <= 9999
    && 1 <= d.month <= 12
    && 1 <= d.day <= DaysInMonth(d.year, d.month)
    && 0 <= d.hour < 24
    && 0 <= d.minute < 60
    && 0 <= d.second < 60
  }

  ghost function DaysBeforeYear(y: int): int
    requires y >= 1
    decreases y
  {
    if y == 1 then 0 else DaysBeforeYear(y - 1) + DaysInYear(y - 1)
  }

  ghost function DaysBeforeMonth(y: int, m: int): int
    requires 1 <= m <= 12
    decreases m
  {
    if m == 1 then 0 else DaysBeforeMonth(y, m - 1) + DaysInMonth(y, m - 1)
  }

  /** The day number, 1 for 0001-01-01 (Python's `toordinal`). */
  ghost function Ordinal(d: DateTime): int
    requires Valid(d)
  {
    DaysBeforeYear(d.year) + DaysBeforeMonth(d.year, d.month) + d.day
  }

  /** Seconds since 0001-01-01 00:00:00 minus one day: the time line on which hours are added. */
  ghost function Instant(d: DateTime): int
    requires Valid(d)
  {
    ((Ordinal(d) * 24 + d.hour) * 60 + d.minute) * 60 + d.second
  }

  /** 9999-12-31, the last day Python's `datetime` can represent. */
  predicate IsLastRepresentableDay(d: DateTime)
  {
    d.year == 9999 && d.month == 12 && d.day == 31
  }

  /** `d + timedelta(hours=h)` for `h < 24`: the wall-clock reading `h` hours later. */
  function AddHours(d: DateTime, h: nat): (r: DateTime)
    requires Valid(d) && h < 24
    requires d.hour + h < 24 || !IsLastRepresentableDay(d)
    ensures Valid(r)
    ensures r.year >= d.year && r.minute == d.minute && r.second == d.second
  {
    if d.hour + h < 24 then d.(hour := d.hour + h)
    else if d.day < DaysInMonth(d.year, d.month) then d.(day := d.day + 1, hour := d.hour + h - 24)
    else if d.month < 12 then d.(month := d.month + 1, day := 1, hour := d.hour + h - 24)
    else DateTime(d.year + 1, 1, 1, d.hour + h - 24, d.minute, d.second)
  }

  /** Adding hours moves the time line forward by exactly that many hours, across day, month and year ends. */
  lemma AddHoursInstant(d: DateTime, h: nat)
    requires Valid(d) && h < 24
    requires d.hour + h < 24 || !IsLastRepresentableDay(d)
    ensures Instant(AddHours(d, h)) == Instant(d) + 3600 * h
  {
    var r := AddHours(d, h);
    if d.hour + h >= 24 {
      assert Ordinal(r) == Ordinal(d) + 1;
    }
  }

  /** `d.replace(year=y)`: None where Python raises (29 February in a non-leap year). */
  function ReplaceYear(d: DateTime, y: int): (r: Option<DateTime>)
    requires Valid(d)
    ensures r.Some? <==> 1 <= y <= 9999 && !(d.month == 2 && d.day == 29 && !IsLeapYear(y))
    ensures r.Some? ==> Valid(r.value) && r.value == d.(year := y)
  {
    if 1 <= y <= 9999 && d.day <= DaysInMonth(y, d.month) then Some(d.(year := y)) else None
  }

  /** One `strptime`/`strftime` directive, or a literal character. */
  datatype Directive = Year4 | Month2 | Day2 | Hour2 | Minute2 | Second2 | UtcOffset | Lit(c: char)

  /** Two digits at the front of `s` whose value lies in `lo..hi`. */
  function TwoDigits(s: string, lo: nat, hi: nat): (r: Option<nat>)
    ensures r.Some? ==> |s| >= 2 && AllDigits(s[..2]) && r.value == DigitsValue(s[..2]) && lo <= r.value <= hi
  {
    if |s| >= 2 && AllDigits(s[..2]) && lo <= DigitsValue(s[..2]) <= hi then Some(DigitsValue(s[..2])) else None
  }

  /** The length of the UTC offset at the front of `s`, or 0 when there is none. */
  function OffsetLength(s: string): (n: nat)
    ensures n <= |s|
  {
    if |s| >= 1 && s[0] == 'Z' then 1
    else if |s| >= 5 && (s[0] == '+' || s[0] == '-') && TwoDigits(s[1..], 0, 23).Some? then
      if |s| >= 6 && s[3] == ':' && TwoDigits(s[4..], 0, 59).Some? then 6
      else if TwoDigits(s[3..], 0, 59).Some? then 5
      else 0
    else 0
  }

  /** Matches `s` against `fmt`, filling the fields of `acc`; None unless the whole of `s` is consumed. */
  function Scan(s: string, fmt: seq<Directive>, acc: DateTime): Option<DateTime>
    decreases |fmt|
  {
    if fmt == [] then (if s == [] then Some(acc) else None)
    else match fmt[0]
      case Lit(c) => if |s| >= 1 && s[0] == c then Scan(s[1..], fmt[1..], acc) else None
      case Year4 =>
        if |s| >= 4 && AllDigits(s[..4]) then Scan(s[4..], fmt[1..], acc.(year := DigitsValue(s[..4]))) else None
      case Month2 =>
        (match TwoDigits(s, 1, 12) case Some(v) => Scan(s[2..], fmt[1..], acc.(month := v)) case None => None)
      case Day2 =>
        (match TwoDigits(s, 1, 31) case Some(v) => Scan(s[2..], fmt[1..], acc.(day := v)) case None => None)
      case Hour2 =>
        (match TwoDigits(s, 0, 23) case Some(v) => Scan(s[2..], fmt[1..], acc.(hour := v)) case None => None)
      case Minute2 =>
        (match TwoDigits(s, 0, 59) case Some(v) => Scan(s[2..], fmt[1..], acc.(minute := v)) case None => None)
      case Second2 =>
        (match TwoDigits(s, 0, 59) case Some(v) => Scan(s[2..], fmt[1..], acc.(second := v)) case None => None)
      case UtcOffset =>
        var n := OffsetLength(s);
        if n > 0 then Scan(s[n..], fmt[1..], acc) else None
  }

  /** `strptime`'s defaults for fields a format does not mention. */
  const STRPTIME_DEFAULTS := DateTime(1900, 1, 1, 0, 0, 0)

  /** `datetime.strptime(s, fmt)`: None where Python raises ValueError. */
  function Strptime(s: string, fmt: seq<Directive>): (r: Option<DateTime>)
    ensures r.Some? ==> Valid(r.value)
  {
    match Scan(s, fmt, STRPTIME_DEFAULTS)
    case Some(d) => if Valid(d) then Some(d) else None
    case None => None
  }

  predicate OffsetFree(fmt: seq<Directive>)
  {
    forall i | 0 <= i < |fmt| :: fmt[i] != UtcOffset
  }

  /** `d.strftime(fmt)` for a naive `d`. */
  function Strftime(fmt: seq<Directive>, d: DateTime): string
    requires Valid(d)
    decreases |fmt|
  {
    if fmt == [] then "" else Piece(fmt[0], d) + Strftime(fmt[1..], d)
  }

  /** The fields of `acc` that `fmt` mentions, taken from `d` instead. */
  function Assign(fmt: seq<Directive>, d: DateTime, acc: DateTime): (r: DateTime)
    ensures r.year == if Year4 in fmt then d.year else acc.year
    ensures r.month == if Month2 in fmt then d.month else acc.month
    ensures r.day == if Day2 in fmt then d.day else acc.day
    ensures r.hour == if Hour2 in fmt then d.hour else acc.hour
    ensures r.minute == if Minute2 in fmt then d.minute else acc.minute
    ensures r.second == if Second2 in fmt then d.second else acc.second
    decreases |fmt|
  {
    if fmt == [] then acc
    else
      assert fmt == [fmt[0]] + fmt[1..];
      var next := match fmt[0]
        case Year4 => acc.(year := d.year)
        case Month2 => acc.(month := d.month)
        case Day2 => acc.(day := d.day)
        case Hour2 => acc.(hour := d.hour)
        case Minute2 => acc.(minute := d.minute)
        case Second2 => acc.(second := d.second)
        case _ => acc;
      Assign(fmt[1..], d, next)
  }

  /** The text one directive renders to; `%z` renders as nothing for a naive datetime. */
  function Piece(dir: Directive, d: DateTime): string
    requires Valid(d)
  {
    match dir
    case UtcOffset => ""
    case Lit(c) => [c]
    case Year4 => Pad4(d.year)
    case Month2 => Pad2(d.month)
    case Day2 => Pad2(d.day)
    case Hour2 => Pad2(d.hour)
    case Minute2 => Pad2(d.minute)
    case Second2 => Pad2(d.second)
  }

  /** Two rendered digits are read back by a two-digit directive whose range holds the value. */
  lemma TwoDigitsPad2(n: nat, rest: string, lo: nat, hi: nat)
    requires lo <= n <= hi && n < 100
    ensures TwoDigits(Pad2(n) + rest, lo, hi) == Some(n) && (Pad2(n) + rest)[2..] == rest
  {
    assert (Pad2(n) + rest)[..2] == Pad2(n);
  }

  /** One rendered directive is read back by the same directive. */
  lemma ScanPiece(dir: Directive, rest: string, fmt: seq<Directive>, d: DateTime, acc: DateTime)
    requires Valid(d) && dir != UtcOffset
    ensures Scan(Piece(dir, d) + rest, [dir] + fmt, acc) == Scan(rest, fmt, Assign([dir], d, acc))
  {
    var s := Piece(dir, d) + rest;
    assert ([dir] + fmt)[0] == dir && ([dir] + fmt)[1..] == fmt;
    assert [dir][1..] == [];
    match dir
    case Lit(c) =>
      assert s[1..] == rest;
    case Year4 =>
      assert s[..4] == Pad4(d.year) && s[4..] == rest;
    case Month2 => TwoDigitsPad2(d.month, rest, 1, 12);
    case Day2 => TwoDigitsPad2(d.day, rest, 1, 31);
    case Hour2 => TwoDigitsPad2(d.hour, rest, 0, 23);
    case Minute2 => TwoDigitsPad2(d.minute, rest, 0, 59);
    case Second2 => TwoDigitsPad2(d.second, rest, 0, 59);
  }

  /** Round trip: `strptime` reads back what `strftime` wrote, whatever follows in text and format. */
  lemma {:induction false} ScanStrftime(fmt: seq<Directive>, d: DateTime, tail: string, tailFmt: seq<Directive>, acc: DateTime)
    requires Valid(d) && OffsetFree(fmt)
    ensures Scan(Strftime(fmt, d) + tail, fmt + tailFmt, acc) == Scan(tail, tailFmt, Assign(fmt, d, acc))
    decreases |fmt|
  {
    if fmt == [] {
      assert Strftime(fmt, d) + tail == tail;
      assert fmt + tailFmt == tailFmt;
    } else {
      var dir := fmt[0];
      var rest := Strftime(fmt[1..], d) + tail;
      assert Strftime(fmt, d) + tail == Piece(dir, d) + rest;
      assert fmt + tailFmt == [dir] + (fmt[1..] + tailFmt);
      ScanPiece(dir, rest, fmt[1..] + tailFmt, d, acc);
      ScanStrftime(fmt[1..], d, tail, tailFmt, Assign([dir], d, acc));
      assert Assign(fmt, d, acc) == Assign(fmt[1..], d, Assign([dir], d, acc));
    }
  }

  /** Every character a directive consumes is accounted for: a successful scan of an offset-free format has a fixed length. */
  function Width(fmt: seq<Directive>): nat
  {
    if fmt == [] then 0
    else (match fmt[0] case Lit(_) => 1 case Year4 => 4 case _ => 2) + Width(fmt[1..])
  }

  lemma {:induction false} ScanLength(s: string, fmt: seq<Directive>, acc: DateTime)
    requires OffsetFree(fmt) && Scan(s, fmt, acc).Some?
    ensures |s| == Width(fmt)
    decreases |fmt|
  {
    if fmt != [] {
      assert fmt[0] != UtcOffset;
      match fmt[0]
      case Lit(c) => ScanLength(s[1..], fmt[1..], acc);
      case Year4 => ScanLength(s[4..], fmt[1..], acc.(year := DigitsValue(s[..4])));
      case Month2 => ScanLength(s[2..], fmt[1..], acc.(month := TwoDigits(s, 1, 12).value));
      case Day2 => ScanLength(s[2..], fmt[1..], acc.(day := TwoDigits(s, 1, 31).value));
      case Hour2 => ScanLength(s[2..], fmt[1..], acc.(hour := TwoDigits(s, 0, 23).value));
      case Minute2 => ScanLength(s[2..], fmt[1..], acc.(minute := TwoDigits(s, 0, 59).value));
      case Second2 => ScanLength(s[2..], fmt[1..], acc.(second := TwoDigits(s, 0, 59).value));
    }
  }

  /** `strftime` renders a format directive by directive. */
  lemma StrftimeCons(dir: Directive, rest: seq<Directive>, d: DateTime)
    requires Valid(d)
    ensures Strftime([dir] + rest, d) == Piece(dir, d) + Strftime(rest, d)
  {
    assert ([dir] + rest)[1..] == rest;
  }
}
