/**
 * `parse_datetime` (calendar_utils.py): the first of eleven `strptime`
 * formats that accepts the text wins; when none does, a "Month Day, Year"
 * pattern with an optional "H:MM AM/PM" is tried, with noon as the default
 * time of day.
 */
module DateParsing {
  import opened Wrappers
  import opened Text
  import opened DateTimes

  /** `%Y-%m-%dT%H:%M:%S`, also the form in which validated times are written back. */
  const ISO_NAIVE: seq<Directive> :=
    [Year4, Lit('-'), Month2, Lit('-'), Day2, Lit('T'), Hour2, Lit(':'), Minute2, Lit(':'), Second2]

  /** The eleven formats, in the order they are tried. */
  const FORMATS: seq<seq<Directive>> := [
    ISO_NAIVE + [UtcOffset],                                                                    // %Y-%m-%dT%H:%M:%S%z
    ISO_NAIVE,                                                                                  // %Y-%m-%dT%H:%M:%S
    [Year4, Lit('-'), Month2, Lit('-'), Day2, Lit(' '), Hour2, Lit(':'), Minute2, Lit(':'), Second2],  // %Y-%m-%d %H:%M:%S
    [Year4, Lit('-'), Month2, Lit('-'), Day2, Lit(' '), Hour2, Lit(':'), Minute2],                // %Y-%m-%d %H:%M
    [Year4, Lit('-'), Month2, Lit('-'), Day2],                                                  // %Y-%m-%d
    [Month2, Lit('/'), Day2, Lit('/'), Year4, Lit(' '), Hour2, Lit(':'), Minute2, Lit(':'), Second2],  // %m/%d/%Y %H:%M:%S
    [Month2, Lit('/'), Day2, Lit('/'), Year4, Lit(' '), Hour2, Lit(':'), Minute2],                // %m/%d/%Y %H:%M
    [Month2, Lit('/'), Day2, Lit('/'), Year4],                                                  // %m/%d/%Y
    [Day2, Lit('/'), Month2, Lit('/'), Year4, Lit(' '), Hour2, Lit(':'), Minute2, Lit(':'), Second2],  // %d/%m/%Y %H:%M:%S
    [Day2, Lit('/'), Month2, Lit('/'), Year4, Lit(' '), Hour2, Lit(':'), Minute2],                // %d/%m/%Y %H:%M
    [Day2, Lit('/'), Month2, Lit('/'), Year4]                                                   // %d/%m/%Y
  ]

  /** Index of `%m/%d/%Y` (month first) and of `%d/%m/%Y` (day first) in FORMATS. */
  const US_DATE: nat := 7
  const DAY_FIRST_DATE: nat := 10

  /** The formats tried in order; the first that accepts `s` decides. */
  function TryFormats(s: string, fmts: seq<seq<Directive>>): (r: Option<DateTime>)
    ensures r.Some? ==> Valid(r.value)
    decreases |fmts|
  {
    if fmts == [] then None
    else match Strptime(s, fmts[0])
      case Some(d) => Some(d)
      case None => TryFormats(s, fmts[1..])
  }

  /** The format at index `i` accepts `s` as `d`, and no earlier one accepts it. */
  ghost predicate FirstAccepting(s: string, fmts: seq<seq<Directive>>, i: int, d: DateTime)
  {
    0 <= i < |fmts| && Strptime(s, fmts[i]) == Some(d) && forall j | 0 <= j < i :: Strptime(s, fmts[j]).None?
  }

  /** First match wins, in both directions. */
  lemma {:induction false} TryFormatsFirstMatch(s: string, fmts: seq<seq<Directive>>, d: DateTime)
    ensures TryFormats(s, fmts) == Some(d) <==> exists i :: FirstAccepting(s, fmts, i, d)
    ensures TryFormats(s, fmts).None? <==> forall j | 0 <= j < |fmts| :: Strptime(s, fmts[j]).None?
    decreases |fmts|
  {
    if fmts != [] {
      TryFormatsFirstMatch(s, fmts[1..], d);
      match Strptime(s, fmts[0])
      case Some(d0) =>
        assert FirstAccepting(s, fmts, 0, d0);
        if exists i :: FirstAccepting(s, fmts, i, d) {
          var i :| FirstAccepting(s, fmts, i, d);
          assert i == 0;
        }
      case None =>
        if TryFormats(s, fmts) == Some(d) {
          var i :| FirstAccepting(s, fmts[1..], i, d);
          assert FirstAccepting(s, fmts, i + 1, d);
        }
        if exists i :: FirstAccepting(s, fmts, i, d) {
          var i :| FirstAccepting(s, fmts, i, d);
          assert FirstAccepting(s, fmts[1..], i - 1, d);
        }
        if forall j | 0 <= j < |fmts[1..]| :: Strptime(s, fmts[1..][j]).None? {
          forall j | 1 <= j < |fmts| ensures Strptime(s, fmts[j]).None? {
            assert fmts[j] == fmts[1..][j - 1];
          }
        }
    }
  }

  // ---- the natural-language fallback: r'(\w+ \d{1,2}, \d{4})(?:.+?(\d{1,2}(?::\d{2})? [AP]M))?' ----

  /** What the date group captured: the word, the day digits, the year digits, and where the group ends. */
  datatype DateMatch = DateMatch(word: string, dayDigits: string, yearDigits: string, end: nat)

  /** What the time group captured: hour digits, minute digits if any, and `A` or `P`. */
  datatype TimeMatch = TimeMatch(hourDigits: string, minuteDigits: Option<string>, meridiem: char)

  /** Characters `i..k` of `s` are all word characters (`\w`). */
  predicate WordRun(s: string, i: nat, k: nat)
    requires i <= k <= |s|
    decreases k - i
  {
    i == k || (IsWordChar(s[i]) && WordRun(s, i + 1, k))
  }

  lemma {:induction false} WordRunChars(s: string, i: nat, k: nat)
    requires i <= k <= |s|
    ensures WordRun(s, i, k) <==> forall j | i <= j < k :: IsWordChar(s[j])
    decreases k - i
  {
    if i < k {
      WordRunChars(s, i + 1, k);
    }
  }

  /** The end of the run of word characters starting at `i`: the characters up to it are word characters, the one at it is not. */
  function WordEnd(s: string, i: nat): (k: nat)
    requires i <= |s|
    ensures i <= k <= |s| && (k == |s| || !IsWordChar(s[k])) && WordRun(s, i, k)
    decreases |s| - i
  {
    if i < |s| && IsWordChar(s[i]) then WordEnd(s, i + 1) else i
  }

  /** A run of word characters ended by a non-word character (or the end) is the run `WordEnd` finds. */
  lemma {:induction false} WordEndAt(s: string, i: nat, k: nat)
    requires i <= k <= |s|
    requires forall j | i <= j < k :: IsWordChar(s[j])
    requires k == |s| || !IsWordChar(s[k])
    ensures WordEnd(s, i) == k
    decreases k - i
  {
    if i < k {
      WordEndAt(s, i + 1, k);
    }
  }

  /** The date group `\w+ \d{1,2}, \d{4}` matched at `i` (greedy `\w+` must end before the space). */
  function DateAt(s: string, i: nat): (r: Option<DateMatch>)
    requires i <= |s|
    ensures r.Some? ==> i < r.value.end <= |s| && |r.value.yearDigits| == 4 && AllDigits(r.value.yearDigits)
    ensures r.Some? ==> 1 <= |r.value.dayDigits| <= 2 && AllDigits(r.value.dayDigits) && r.value.word != ""
  {
    var k := WordEnd(s, i);
    if k > i && k < |s| && s[k] == ' ' then
      var nd := if k + 2 < |s| && IsDigit(s[k + 1]) && IsDigit(s[k + 2]) then 2
        else if k + 1 < |s| && IsDigit(s[k + 1]) then 1 else 0;
      var y := k + nd + 3;
      if nd > 0 && OccursAt(s, k + 1 + nd, ", ") && y + 4 <= |s| && AllDigits(s[y..y + 4]) then
        Some(DateMatch(s[i..k], s[k + 1..k + 1 + nd], s[y..y + 4], y + 4))
      else None
    else None
  }

  /**
   * `\w+ \d{1,2}, \d{4}` matches at `i` with these captures: a run of word
   * characters followed by a space, one or two digits, ", " and four digits.
   * The captures are determined by `s` and `i`: the space ends the greedy
   * `\w+`, and ", " leaves `\d{1,2}` one way to match.
   */
  ghost predicate DateGroupAt(s: string, i: nat, dm: DateMatch)
  {
    var k := i + |dm.word|;
    var y := k + |dm.dayDigits| + 3;
    && dm.end == y + 4 <= |s|
    && dm.word != "" && s[i..k] == dm.word && (forall j | 0 <= j < |dm.word| :: IsWordChar(dm.word[j]))
    && s[k] == ' '
    && 1 <= |dm.dayDigits| <= 2 && AllDigits(dm.dayDigits) && s[k + 1..y - 2] == dm.dayDigits
    && s[y - 2..y] == ", "
    && |dm.yearDigits| == 4 && AllDigits(dm.yearDigits) && s[y..y + 4] == dm.yearDigits
  }

  /** `DateAt` finds exactly the match of the date group at `i`, and nothing when it does not match there. */
  lemma DateAtMeaning(s: string, i: nat, dm: DateMatch)
    requires i <= |s|
    ensures DateAt(s, i) == Some(dm) <==> DateGroupAt(s, i, dm)
  {
    if DateAt(s, i) == Some(dm) {
      DateAtSound(s, i);
    }
    if DateGroupAt(s, i, dm) {
      DateAtComplete(s, i, dm);
    }
  }

  lemma DateAtSound(s: string, i: nat)
    requires i <= |s| && DateAt(s, i).Some?
    ensures DateGroupAt(s, i, DateAt(s, i).value)
  {
    var dm := DateAt(s, i).value;
    var k := WordEnd(s, i);
    var nd := |dm.dayDigits|;
    var y := k + nd + 3;
    assert dm == DateMatch(s[i..k], s[k + 1..k + 1 + nd], s[y..y + 4], y + 4);
    WordRunChars(s, i, k);
    OccursAtSlice(s, k + 1 + nd, ", ");
    forall j | 0 <= j < |dm.word| ensures IsWordChar(dm.word[j]) {
      assert dm.word[j] == s[i + j];
    }
  }

  lemma DateAtComplete(s: string, i: nat, dm: DateMatch)
    requires i <= |s| && DateGroupAt(s, i, dm)
    ensures DateAt(s, i) == Some(dm)
  {
    DateGroupWordEnd(s, i, dm);
    DateGroupDigits(s, i, dm);
    var w := i + |dm.word|;
    var nd := |dm.dayDigits|;
    var y := w + nd + 3;
    assert s[y..y + 4] == dm.yearDigits && s[w + 1..y - 2] == dm.dayDigits;
    DateAtOf(s, i, w, nd);
  }

  /** `DateAt` once the word, the day digits and ", " are known to match. */
  lemma DateAtOf(s: string, i: nat, w: nat, nd: nat)
    requires i < w < |s| && WordEnd(s, i) == w && s[w] == ' ' && 1 <= nd <= 2
    requires (if w + 2 < |s| && IsDigit(s[w + 1]) && IsDigit(s[w + 2]) then 2
              else if w + 1 < |s| && IsDigit(s[w + 1]) then 1 else 0) == nd
    requires OccursAt(s, w + 1 + nd, ", ") && w + nd + 7 <= |s| && AllDigits(s[w + nd + 3..w + nd + 7])
    ensures DateAt(s, i) == Some(DateMatch(s[i..w], s[w + 1..w + 1 + nd], s[w + nd + 3..w + nd + 7], w + nd + 7))
  {
  }

  /** After the word of a date group, `\d{1,2}` takes exactly the day digits, and ", " follows them. */
  lemma DateGroupDigits(s: string, i: nat, dm: DateMatch)
    requires i <= |s| && DateGroupAt(s, i, dm)
    ensures var w := i + |dm.word|;
      var nd := |dm.dayDigits|;
      && (if w + 2 < |s| && IsDigit(s[w + 1]) && IsDigit(s[w + 2]) then 2
          else if w + 1 < |s| && IsDigit(s[w + 1]) then 1 else 0) == nd
      && OccursAt(s, w + 1 + nd, ", ")
  {
    var w := i + |dm.word|;
    var nd := |dm.dayDigits|;
    var y := w + nd + 3;
    assert s[w + 1] == dm.dayDigits[0];
    if nd == 2 {
      assert s[w + 2] == dm.dayDigits[1];
    } else {
      assert s[w + 2] == s[y - 2..y][0];
    }
    OccursAtSlice(s, w + 1 + nd, ", ");
  }

  /** The word of a date group is the whole run of word characters at its start. */
  lemma DateGroupWordEnd(s: string, i: nat, dm: DateMatch)
    requires i <= |s| && DateGroupAt(s, i, dm)
    ensures WordEnd(s, i) == i + |dm.word|
  {
    var w := i + |dm.word|;
    forall j | i <= j < w ensures IsWordChar(s[j]) {
      assert s[j] == dm.word[j - i];
    }
    WordEndAt(s, i, w);
  }

  /** Where the search for the date group stops: the leftmost position at or after `i` where it matches, else `|s|`. */
  function DatePos(s: string, i: nat): (j: nat)
    requires i <= |s|
    ensures i <= j <= |s|
    decreases |s| - i
  {
    if DateAt(s, i).Some? || i == |s| then i else DatePos(s, i + 1)
  }

  /** The leftmost date group at or after `i` (`re.search`). */
  function FirstDate(s: string, i: nat): (r: Option<DateMatch>)
    requires i <= |s|
    ensures r.Some? ==> i < r.value.end <= |s| && |r.value.yearDigits| == 4 && AllDigits(r.value.yearDigits)
    ensures r.Some? ==> 1 <= |r.value.dayDigits| <= 2 && AllDigits(r.value.dayDigits) && r.value.word != ""
  {
    DateAt(s, DatePos(s, i))
  }

  /** The date group matches at no position of `lo..hi`. */
  predicate NoDateBetween(s: string, lo: nat, hi: nat)
    requires lo <= hi <= |s|
    decreases hi - lo
  {
    lo == hi || (DateAt(s, lo).None? && NoDateBetween(s, lo + 1, hi))
  }

  /** The search passes only positions where the date group does not match, and stops early only at a match. */
  lemma {:induction false} DatePosLeftmost(s: string, i: nat)
    requires i <= |s|
    ensures NoDateBetween(s, i, DatePos(s, i))
    ensures DatePos(s, i) < |s| ==> DateAt(s, DatePos(s, i)).Some?
    decreases |s| - i
  {
    if DateAt(s, i).None? && i < |s| {
      DatePosLeftmost(s, i + 1);
    }
  }

  lemma {:induction false} NoDateAt(s: string, lo: nat, hi: nat, k: nat)
    requires lo <= k < hi <= |s| && NoDateBetween(s, lo, hi)
    ensures DateAt(s, k).None?
    decreases k - lo
  {
    if lo < k {
      NoDateAt(s, lo + 1, hi, k);
    }
  }

  /** The date group found is the one at the leftmost position where it matches; none is found only when it matches nowhere. */
  lemma FirstDateLeftmost(s: string, i: nat)
    requires i <= |s|
    ensures FirstDate(s, i).Some? ==>
      exists j :: i <= j <= |s| && DateAt(s, j) == FirstDate(s, i) && forall k | i <= k < j :: DateAt(s, k).None?
    ensures FirstDate(s, i).None? ==> forall j | i <= j <= |s| :: DateAt(s, j).None?
  {
    var j := DatePos(s, i);
    DatePosLeftmost(s, i);
    forall k | i <= k < j ensures DateAt(s, k).None? {
      NoDateAt(s, i, j, k);
    }
    if FirstDate(s, i).None? {
      assert j == |s|;
    }
  }

  /** ` [AP]M` at `j`. */
  function MeridiemAt(s: string, j: nat): Option<char>
  {
    if j + 3 <= |s| && s[j] == ' ' && (s[j + 1] == 'A' || s[j + 1] == 'P') && s[j + 2] == 'M' then Some(s[j + 1]) else None
  }

  /** `(?::\d{2})? [AP]M` after `nd` hour digits at `m`; the minutes are tried first. */
  function TimeRest(s: string, m: nat, nd: nat): (r: Option<TimeMatch>)
    requires m + nd <= |s|
    ensures r.Some? ==> r.value.meridiem == 'A' || r.value.meridiem == 'P'
  {
    var j := m + nd;
    if j + 3 <= |s| && s[j] == ':' && AllDigits(s[j + 1..j + 3]) && MeridiemAt(s, j + 3).Some? then
      Some(TimeMatch(s[m..j], Some(s[j + 1..j + 3]), MeridiemAt(s, j + 3).value))
    else if MeridiemAt(s, j).Some? then Some(TimeMatch(s[m..j], None, MeridiemAt(s, j).value))
    else None
  }

  /** The time group `\d{1,2}(?::\d{2})? [AP]M` at `m`; two hour digits are tried before one. */
  function TimeAt(s: string, m: nat): (r: Option<TimeMatch>)
    ensures r.Some? ==> r.value.meridiem == 'A' || r.value.meridiem == 'P'
    ensures r.Some? ==> 1 <= |r.value.hourDigits| <= 2 && AllDigits(r.value.hourDigits)
    ensures r.Some? && r.value.minuteDigits.Some? ==> |r.value.minuteDigits.value| == 2 && AllDigits(r.value.minuteDigits.value)
  {
    if m + 2 <= |s| && IsDigit(s[m]) && IsDigit(s[m + 1]) && TimeRest(s, m, 2).Some? then
      assert s[m..m + 2] == [s[m], s[m + 1]];
      TimeRest(s, m, 2)
    else if m + 1 <= |s| && IsDigit(s[m]) then
      assert s[m..m + 1] == [s[m]];
      TimeRest(s, m, 1)
    else None
  }

  /**
   * `\d{1,2}(?::\d{2})? [AP]M` matches at `m` with these captures: one or
   * two hour digits, then ':' and two minute digits when there are minutes,
   * then a space, `A` or `P`, and `M`. The four ways to match exclude each
   * other (the character after the first digit, and after the hour digits,
   * tells them apart), so the captures are determined by `s` and `m`.
   */
  ghost predicate TimeGroupAt(s: string, m: nat, t: TimeMatch)
  {
    var h := m + |t.hourDigits|;
    var j := if t.minuteDigits.Some? then h + 3 else h;
    && 1 <= |t.hourDigits| <= 2 && AllDigits(t.hourDigits)
    && j + 3 <= |s| && s[m..h] == t.hourDigits
    && (t.minuteDigits.Some? ==>
          |t.minuteDigits.value| == 2 && AllDigits(t.minuteDigits.value) && s[h] == ':' && s[h + 1..j] == t.minuteDigits.value)
    && (t.meridiem == 'A' || t.meridiem == 'P') && s[j..j + 3] == [' ', t.meridiem, 'M']
  }

  lemma TimeRestMeaning(s: string, m: nat, nd: nat, t: TimeMatch)
    requires 1 <= nd <= 2 && m + nd <= |s| && AllDigits(s[m..m + nd])
    ensures TimeRest(s, m, nd) == Some(t) <==> TimeGroupAt(s, m, t) && |t.hourDigits| == nd
  {
    var j := m + nd;
    if TimeRest(s, m, nd) == Some(t) {
      if t.minuteDigits.Some? {
        assert s[j + 3..j + 6] == [' ', t.meridiem, 'M'];
      } else {
        assert s[j..j + 3] == [' ', t.meridiem, 'M'];
      }
    }
    if TimeGroupAt(s, m, t) && |t.hourDigits| == nd {
      if t.minuteDigits.Some? {
        assert s[j + 3..j + 6][0] == s[j + 3];
        assert MeridiemAt(s, j + 3) == Some(t.meridiem);
      } else {
        assert s[j] == s[j..j + 3][0];
        assert MeridiemAt(s, j) == Some(t.meridiem);
      }
    }
  }

  /** `TimeAt` finds exactly the match of the time group at `m`, and nothing when it does not match there. */
  lemma TimeAtMeaning(s: string, m: nat, t: TimeMatch)
    ensures TimeAt(s, m) == Some(t) <==> TimeGroupAt(s, m, t)
  {
    if m + 2 <= |s| && IsDigit(s[m]) && IsDigit(s[m + 1]) {
      assert AllDigits(s[m..m + 2]);
      TimeRestMeaning(s, m, 2, t);
    }
    if m + 1 <= |s| && IsDigit(s[m]) {
      assert AllDigits(s[m..m + 1]);
      TimeRestMeaning(s, m, 1, t);
    }
    if TimeGroupAt(s, m, t) {
      var h := m + |t.hourDigits|;
      assert s[m] == t.hourDigits[0];
      if |t.hourDigits| == 2 {
        assert s[m + 1] == t.hourDigits[1];
      } else if t.minuteDigits.None? {
        assert s[h] == s[h..h + 3][0];
      }
    }
  }

  /**
   * The lazy `.+?` before the time group: the nearest `m > e` where the time
   * group matches, with no newline among the characters skipped.
   */
  function TimeSearch(s: string, e: nat, m: nat): (r: Option<TimeMatch>)
    requires e < m
    ensures r.Some? ==> r.value.meridiem == 'A' || r.value.meridiem == 'P'
    ensures r.Some? ==> 1 <= |r.value.hourDigits| <= 2 && AllDigits(r.value.hourDigits)
    ensures r.Some? && r.value.minuteDigits.Some? ==> |r.value.minuteDigits.value| == 2 && AllDigits(r.value.minuteDigits.value)
    decreases |s| + 1 - m
  {
    if m > |s| || s[m - 1] == '\n' then None
    else if TimeAt(s, m).Some? then TimeAt(s, m)
    else TimeSearch(s, e, m + 1)
  }

  /**
   * The search from `m` on (the characters `e..m - 1` holding no newline)
   * finds the time group at the nearest position `p >= m` where it matches
   * and `.+?` can reach, that is with no newline in `e..p`; it finds nothing
   * only when the time group matches at no such position.
   */
  lemma {:induction false} TimeSearchNearest(s: string, e: nat, m: nat)
    requires e < m
    requires forall j | e <= j < m - 1 && j < |s| :: s[j] != '\n'
    ensures TimeSearch(s, e, m).Some? ==>
      exists p | m <= p <= |s| ::
        && (forall j | e <= j < p :: s[j] != '\n')
        && TimeAt(s, p) == TimeSearch(s, e, m)
        && forall q | m <= q < p :: TimeAt(s, q).None?
    ensures TimeSearch(s, e, m).None? ==>
      forall p | m <= p <= |s| && (forall j | e <= j < p :: s[j] != '\n') :: TimeAt(s, p).None?
    decreases |s| + 1 - m
  {
    if m > |s| || s[m - 1] == '\n' {
    } else if TimeAt(s, m).Some? {
      assert forall j | e <= j < m :: s[j] != '\n';
    } else {
      TimeSearchNearest(s, e, m + 1);
      if TimeSearch(s, e, m).Some? {
        var p :| m + 1 <= p <= |s| && (forall j | e <= j < p :: s[j] != '\n')
          && TimeAt(s, p) == TimeSearch(s, e, m) && forall q | m + 1 <= q < p :: TimeAt(s, q).None?;
        assert forall q | m <= q < p :: TimeAt(s, q).None?;
      }
    }
  }

  const MONTH_NAMES: seq<string> := ["January", "February", "March", "April", "May", "June", "July",
                                      "August", "September", "October", "November", "December"]

  /** `%B`: a full English month name, letters compared ignoring case. */
  function MonthNumber(word: string): (r: Option<nat>)
    ensures r.Some? ==> 1 <= r.value <= 12 && EqualsIgnoreCase(word, MONTH_NAMES[r.value - 1])
    ensures r.None? ==> forall i | 0 <= i < 12 :: !EqualsIgnoreCase(word, MONTH_NAMES[i])
  {
    MonthFrom(word, 0)
  }

  function MonthFrom(word: string, i: nat): (r: Option<nat>)
    requires i <= 12
    ensures r.Some? ==> i < r.value <= 12 && EqualsIgnoreCase(word, MONTH_NAMES[r.value - 1])
    ensures r.None? ==> forall j | i <= j < 12 :: !EqualsIgnoreCase(word, MONTH_NAMES[j])
    decreases 12 - i
  {
    if i == 12 then None
    else if EqualsIgnoreCase(word, MONTH_NAMES[i]) then Some(i + 1)
    else MonthFrom(word, i + 1)
  }

  /** The hour of the day for a 12-hour clock reading (`%I` with `%p`). */
  function Hour24(hour12: nat, meridiem: char): nat
  {
    if meridiem == 'A' then (if hour12 == 12 then 0 else hour12)
    else (if hour12 == 12 then 12 else hour12 + 12)
  }

  /** The 12-hour clock reading of an hour of the day: 12 for midnight and noon. */
  function Hour12(hour: nat): (h: nat)
    ensures 1 <= h <= 12
  {
    if hour % 12 == 0 then 12 else hour % 12
  }

  /** `A` before noon, `P` from noon on. */
  function Meridiem(hour: nat): char
  {
    if hour < 12 then 'A' else 'P'
  }

  /** Reading a 12-hour clock gives back the hour of the day it shows, and the other way round. */
  lemma ClockHoursInverse(hour: nat, hour12: nat, meridiem: char)
    ensures hour < 24 ==> Hour24(Hour12(hour), Meridiem(hour)) == hour
    ensures 1 <= hour12 <= 12 && (meridiem == 'A' || meridiem == 'P') ==>
      && Hour24(hour12, meridiem) < 24
      && Hour12(Hour24(hour12, meridiem)) == hour12 && Meridiem(Hour24(hour12, meridiem)) == meridiem
  {
  }

  /**
   * `strptime(f"{date_part} {time_part}", '%B %d, %Y %I:%M %p')`: the time
   * part must have minutes, the hour lies in 1..12, the day in 1..31, and the
   * date must exist.
   */
  function ReadNatural(dm: DateMatch, hourDigits: string, minuteDigits: Option<string>, meridiem: char): (r: Option<DateTime>)
    requires AllDigits(dm.dayDigits) && AllDigits(dm.yearDigits) && AllDigits(hourDigits)
    requires minuteDigits.Some? ==> AllDigits(minuteDigits.value)
    ensures r.Some? ==> Valid(r.value)
    ensures r.Some? <==>
      && minuteDigits.Some? && MonthNumber(dm.word).Some?
      && 1 <= DigitsValue(hourDigits) <= 12 && DigitsValue(minuteDigits.value) < 60
      && 1 <= DigitsValue(dm.yearDigits) <= 9999
      && 1 <= DigitsValue(dm.dayDigits) <= DaysInMonth(DigitsValue(dm.yearDigits), MonthNumber(dm.word).value)
    ensures r.Some? ==>
      && r.value.year == DigitsValue(dm.yearDigits)
      && EqualsIgnoreCase(dm.word, MONTH_NAMES[r.value.month - 1])
      && r.value.day == DigitsValue(dm.dayDigits)
      && r.value.hour == Hour24(DigitsValue(hourDigits), meridiem)
      && r.value.minute == DigitsValue(minuteDigits.value) && r.value.second == 0
  {
    match (MonthNumber(dm.word), minuteDigits)
    case (Some(month), Some(mm)) =>
      var day := DigitsValue(dm.dayDigits);
      var hour12 := DigitsValue(hourDigits);
      var minute := DigitsValue(mm);
      var d := DateTime(DigitsValue(dm.yearDigits), month, day, Hour24(hour12, meridiem), minute, 0);
      if 1 <= day <= 31 && 1 <= hour12 <= 12 && minute <= 59 && Valid(d) then Some(d) else None
    case _ => None
  }

  /** The whole natural-language fallback: the leftmost date, then the nearest time after it, else "12:00 PM". */
  function NaturalFallback(s: string): (r: Option<DateTime>)
    ensures r.Some? ==> Valid(r.value)
    ensures r.Some? ==>
      && FirstDate(s, 0).Some?
      && r.value.year == DigitsValue(FirstDate(s, 0).value.yearDigits)
      && EqualsIgnoreCase(FirstDate(s, 0).value.word, MONTH_NAMES[r.value.month - 1])
      && r.value.day == DigitsValue(FirstDate(s, 0).value.dayDigits)
      && r.value.second == 0
  {
    match FirstDate(s, 0)
    case None => None
    case Some(dm) =>
      match TimeSearch(s, dm.end, dm.end + 1)
      case None => ReadNatural(dm, "12", Some("00"), 'P')
      case Some(t) => ReadNatural(dm, t.hourDigits, t.minuteDigits, t.meridiem)
  }

  /** `parse_datetime`: None for the empty string, else the first accepting format, else the fallback. */
  function ParseDateTime(s: string): (r: Option<DateTime>)
    ensures r.Some? ==> Valid(r.value)
    ensures s == "" ==> r.None?
  {
    if s == "" then None
    else match TryFormats(s, FORMATS)
      case Some(d) => Some(d)
      case None => NaturalFallback(s)
  }

  /** The order of the attempts, in both directions: a format result only when no earlier format accepts, the fallback only when none does. */
  lemma ParseDateTimeOrder(s: string, d: DateTime)
    ensures ParseDateTime(s) == Some(d) <==>
      s != "" && ((exists i :: FirstAccepting(s, FORMATS, i, d)) ||
                  ((forall j | 0 <= j < |FORMATS| :: Strptime(s, FORMATS[j]).None?) && NaturalFallback(s) == Some(d)))
  {
    TryFormatsFirstMatch(s, FORMATS, d);
  }

  /** A format that starts with `%Y` needs four digits first. */
  lemma YearFirstNeedsDigits(s: string, fmt: seq<Directive>, acc: DateTime)
    requires fmt != [] && fmt[0] == Year4 && Scan(s, fmt, acc).Some?
    ensures |s| >= 4 && IsDigit(s[2])
  {
    assert AllDigits(s[..4]);
    assert s[..4][2] == s[2];
  }

  /** A format that starts with two digits and a slash needs the slash at index 2. */
  lemma SlashAfterTwoDigits(s: string, fmt: seq<Directive>, acc: DateTime)
    requires |fmt| >= 2 && (fmt[0] == Month2 || fmt[0] == Day2) && fmt[1] == Lit('/') && Scan(s, fmt, acc).Some?
    ensures |s| >= 3 && s[2] == '/'
  {
    var v := if fmt[0] == Month2 then TwoDigits(s, 1, 12).value else TwoDigits(s, 1, 31).value;
    var acc' := if fmt[0] == Month2 then acc.(month := v) else acc.(day := v);
    assert Scan(s[2..], fmt[1..], acc').Some?;
    assert fmt[1..][0] == Lit('/');
    assert s[2..][0] == s[2];
  }

  /** Text of the shape `NN/NN/YYYY` is rejected by every format before the month-first date. */
  lemma SlashDateSkipsEarlierFormats(s: string)
    requires |s| == 10 && s[2] == '/'
    ensures forall j | 0 <= j < US_DATE :: Strptime(s, FORMATS[j]).None?
  {
    forall j | 0 <= j < US_DATE ensures Strptime(s, FORMATS[j]).None? {
      if j < 5 && Strptime(s, FORMATS[j]).Some? {
        YearFirstNeedsDigits(s, FORMATS[j], STRPTIME_DEFAULTS);
      }
    }
  }

  /** An ambiguous `NN/NN/YYYY` that the month-first format accepts is read month first. */
  lemma MonthFirstWins(s: string)
    requires Strptime(s, FORMATS[US_DATE]).Some?
    ensures ParseDateTime(s) == Strptime(s, FORMATS[US_DATE])
  {
    var d := Strptime(s, FORMATS[US_DATE]).value;
    ScanLength(s, FORMATS[US_DATE], STRPTIME_DEFAULTS);
    SlashAfterTwoDigits(s, FORMATS[US_DATE], STRPTIME_DEFAULTS);
    SlashDateSkipsEarlierFormats(s);
    assert FirstAccepting(s, FORMATS, US_DATE, d);
    ParseDateTimeOrder(s, d);
  }

  /** The day-first date is reached exactly when the month-first reading fails. */
  lemma DayFirstOnlyAfterMonthFirstFails(s: string)
    requires Strptime(s, FORMATS[DAY_FIRST_DATE]).Some?
    ensures Strptime(s, FORMATS[US_DATE]).None? ==> ParseDateTime(s) == Strptime(s, FORMATS[DAY_FIRST_DATE])
    ensures Strptime(s, FORMATS[US_DATE]).Some? ==> ParseDateTime(s) == Strptime(s, FORMATS[US_DATE])
  {
    var d := Strptime(s, FORMATS[DAY_FIRST_DATE]).value;
    ScanLength(s, FORMATS[DAY_FIRST_DATE], STRPTIME_DEFAULTS);
    SlashAfterTwoDigits(s, FORMATS[DAY_FIRST_DATE], STRPTIME_DEFAULTS);
    SlashDateSkipsEarlierFormats(s);
    if Strptime(s, FORMATS[US_DATE]).None? {
      forall j | US_DATE < j < DAY_FIRST_DATE ensures Strptime(s, FORMATS[j]).None? {
      }
      assert FirstAccepting(s, FORMATS, DAY_FIRST_DATE, d);
      ParseDateTimeOrder(s, d);
    } else {
      MonthFirstWins(s);
    }
  }

  /** `%Y-%m-%dT%H:%M:%S` sets every field, so the defaults of `strptime` never show through. */
  lemma IsoNaiveSetsAllFields(d: DateTime)
    ensures Assign(ISO_NAIVE, d, STRPTIME_DEFAULTS) == d
  {
    assert Year4 in ISO_NAIVE && Month2 in ISO_NAIVE && Day2 in ISO_NAIVE;
    assert Hour2 in ISO_NAIVE && Minute2 in ISO_NAIVE && Second2 in ISO_NAIVE;
  }

  /** `%Y-%m-%dT%H:%M:%S` has no `%z`. */
  lemma IsoNaiveOffsetFree()
    ensures OffsetFree(ISO_NAIVE)
  {
    forall i | 0 <= i < |ISO_NAIVE| ensures ISO_NAIVE[i] != UtcOffset {
    }
  }

  lemma OffsetOnly(zone: string, d: DateTime)
    requires |zone| > 0 && OffsetLength(zone) == |zone|
    ensures Scan(zone, [UtcOffset], d) == Some(d)
  {
    assert zone[|zone|..] == [];
    assert [UtcOffset][1..] == [];
  }

  /** Round trip: a date written as `%Y-%m-%dT%H:%M:%S` followed by a UTC offset is read back by the first format. */
  lemma ParseIsoWithOffset(d: DateTime, zone: string)
    requires Valid(d) && |zone| > 0 && OffsetLength(zone) == |zone|
    ensures ParseDateTime(Strftime(ISO_NAIVE, d) + zone) == Some(d)
  {
    var s := Strftime(ISO_NAIVE, d) + zone;
    IsoNaiveOffsetFree();
    ScanStrftime(ISO_NAIVE, d, zone, [UtcOffset], STRPTIME_DEFAULTS);
    IsoNaiveSetsAllFields(d);
    OffsetOnly(zone, d);
    assert FORMATS[0] == ISO_NAIVE + [UtcOffset];
    assert Scan(s, FORMATS[0], STRPTIME_DEFAULTS) == Some(d);
    assert FirstAccepting(s, FORMATS, 0, d);
    ParseDateTimeOrder(s, d);
  }

  /**
   * With no time after the date, the fallback reads 12:00 PM: it succeeds
   * exactly when the word names a month and the day exists in that month.
   */
  lemma FallbackDefaultsToNoon(s: string)
    requires FirstDate(s, 0).Some?
    requires TimeSearch(s, FirstDate(s, 0).value.end, FirstDate(s, 0).value.end + 1).None?
    ensures var dm := FirstDate(s, 0).value;
      NaturalFallback(s).Some? <==>
        && MonthNumber(dm.word).Some? && 1 <= DigitsValue(dm.yearDigits)
        && 1 <= DigitsValue(dm.dayDigits) <= DaysInMonth(DigitsValue(dm.yearDigits), MonthNumber(dm.word).value)
    ensures NaturalFallback(s).Some? ==> NaturalFallback(s).value.hour == 12 && NaturalFallback(s).value.minute == 0
  {
    NoonDigits();
    FourDigitsBelow(FirstDate(s, 0).value.yearDigits);
  }

  lemma NoonDigits()
    ensures DigitsValue("12") == 12 && DigitsValue("00") == 0
  {
    assert "12"[..1] == "1";
    assert "1"[..0] == "";
    assert "00"[..1] == "0";
    assert "0"[..0] == "";
  }

  /** A time without minutes ("3 PM") fails `%I:%M %p`, and with it the whole parse. */
  lemma FallbackNeedsMinutes(s: string)
    requires FirstDate(s, 0).Some?
    requires TimeSearch(s, FirstDate(s, 0).value.end, FirstDate(s, 0).value.end + 1).Some?
    requires TimeSearch(s, FirstDate(s, 0).value.end, FirstDate(s, 0).value.end + 1).value.minuteDigits.None?
    ensures NaturalFallback(s).None?
  {
    var dm := FirstDate(s, 0).value;
    var t := TimeSearch(s, dm.end, dm.end + 1).value;
    assert NaturalFallback(s) == ReadNatural(dm, t.hourDigits, t.minuteDigits, t.meridiem);
  }

  /** The fallback accepts only a full month name as the word before the day. */
  lemma FallbackNeedsMonthName(s: string)
    requires NaturalFallback(s).Some?
    ensures FirstDate(s, 0).Some?
    ensures exists i | 0 <= i < 12 :: EqualsIgnoreCase(FirstDate(s, 0).value.word, MONTH_NAMES[i])
  {
    FallbackReadsMonth(s);
    var m := MonthNumber(FirstDate(s, 0).value.word).value;
    assert EqualsIgnoreCase(FirstDate(s, 0).value.word, MONTH_NAMES[m - 1]);
  }

  /** The fallback reads a date only when `%B` reads its word. */
  lemma FallbackReadsMonth(s: string)
    requires NaturalFallback(s).Some?
    ensures FirstDate(s, 0).Some? && MonthNumber(FirstDate(s, 0).value.word).Some?
  {
    var dm := FirstDate(s, 0).value;
    match TimeSearch(s, dm.end, dm.end + 1)
    case None =>
      assert NaturalFallback(s) == ReadNatural(dm, "12", Some("00"), 'P');
    case Some(t) =>
      assert NaturalFallback(s) == ReadNatural(dm, t.hourDigits, t.minuteDigits, t.meridiem);
  }

  /** Four decimal digits read at most 9999. */
  lemma FourDigitsBelow(y: string)
    requires |y| == 4 && AllDigits(y)
    ensures DigitsValue(y) <= 9999
  {
    var a, b, c := y[..1], y[..2], y[..3];
    assert a[..0] == [] && b[..1] == a && c[..2] == b;
    assert DigitsValue(a) <= 9;
    assert DigitsValue(b) <= 99;
    assert DigitsValue(c) <= 999;
  }

  /** How a date is written out in English: "March 18, 2025". */
  function EnglishDate(d: DateTime): string
    requires Valid(d)
  {
    MONTH_NAMES[d.month - 1] + " " + NatToString(d.day) + ", " + Pad4(d.year)
  }

  /** A reading of a 12-hour clock: "3:05 PM". */
  function ClockReading(hour: nat, minute: nat): string
    requires minute < 60
  {
    NatToString(Hour12(hour)) + ":" + Pad2(minute) + " " + [Meridiem(hour)] + "M"
  }

  lemma MonthNameIsWord(k: nat)
    requires k < 12
    ensures forall j | 0 <= j < |MONTH_NAMES[k]| :: IsWordChar(MONTH_NAMES[k][j])
  {
  }

  lemma MonthNamesDistinct(j: nat, k: nat)
    requires j < 12 && k < 12 && j != k
    ensures !EqualsIgnoreCase(MONTH_NAMES[j], MONTH_NAMES[k])
  {
    var a, b := MONTH_NAMES[j], MONTH_NAMES[k];
    if |a| == |b| {
      if a[0] != b[0] {
        assert ToLower(a[0]) != ToLower(b[0]);
      } else {
        assert ToLower(a[2]) != ToLower(b[2]);
      }
    }
  }

  /** `%B` reads each month's own name as that month. */
  lemma MonthNumberOfName(k: nat)
    requires k < 12
    ensures MonthNumber(MONTH_NAMES[k]) == Some(k + 1)
  {
    var w := MONTH_NAMES[k];
    assert EqualsIgnoreCase(w, MONTH_NAMES[k]);
    var r := MonthNumber(w);
    if r.value != k + 1 {
      MonthNamesDistinct(k, r.value - 1);
    }
  }

  /** The date group matches a date written out in English, whatever follows it. */
  lemma EnglishDateAt(d: DateTime, rest: string)
    requires Valid(d)
    ensures DateAt(EnglishDate(d) + rest, 0) ==
      Some(DateMatch(MONTH_NAMES[d.month - 1], NatToString(d.day), Pad4(d.year), |EnglishDate(d)|))
  {
    var w, n, y := MONTH_NAMES[d.month - 1], NatToString(d.day), Pad4(d.year);
    var s := EnglishDate(d) + rest;
    assert s == w + " " + n + ", " + y + rest;
    MonthNameIsWord(d.month - 1);
    DateGroupOfParts(w, n, y, rest);
    DateAtComplete(s, 0, DateMatch(w, n, y, |EnglishDate(d)|));
  }

  lemma DateGroupOfParts(w: string, n: string, y: string, rest: string)
    requires w != "" && forall j | 0 <= j < |w| :: IsWordChar(w[j])
    requires 1 <= |n| <= 2 && AllDigits(n) && |y| == 4 && AllDigits(y)
    ensures DateGroupAt(w + " " + n + ", " + y + rest, 0, DateMatch(w, n, y, |w| + |n| + 7))
  {
    var t := w + " " + n + ", " + y + rest;
    var k := |w|;
    assert t[0..k] == w;
    assert t[k + 1..k + 1 + |n|] == n;
    assert t[k + 1 + |n|..k + 3 + |n|] == ", ";
    assert t[k + 3 + |n|..k + 7 + |n|] == y;
  }

  /** The time group matches a 12-hour clock reading, whatever precedes it. */
  lemma ClockReadingAt(pre: string, hour: nat, minute: nat)
    requires minute < 60
    ensures TimeAt(pre + ClockReading(hour, minute), |pre|) ==
      Some(TimeMatch(NatToString(Hour12(hour)), Some(Pad2(minute)), Meridiem(hour)))
  {
    var h, mm, c := NatToString(Hour12(hour)), Pad2(minute), Meridiem(hour);
    var s := pre + ClockReading(hour, minute);
    assert s == pre + h + ":" + mm + " " + [c] + "M";
    TimeGroupOfParts(pre, h, mm, c);
    TimeAtMeaning(s, |pre|, TimeMatch(h, Some(mm), c));
  }

  lemma TimeGroupOfParts(pre: string, h: string, mm: string, c: char)
    requires 1 <= |h| <= 2 && AllDigits(h) && |mm| == 2 && AllDigits(mm) && (c == 'A' || c == 'P')
    ensures TimeGroupAt(pre + h + ":" + mm + " " + [c] + "M", |pre|, TimeMatch(h, Some(mm), c))
  {
    var t := pre + h + ":" + mm + " " + [c] + "M";
    var m := |pre|;
    assert t[m..m + |h|] == h;
    assert t[m + |h| + 1..m + |h| + 3] == mm;
    assert t[m + |h| + 3..m + |h| + 6] == [' ', c, 'M'];
  }

  /** A date written out in English, alone, reads as noon of that day. */
  lemma FallbackReadsDate(d: DateTime)
    requires Valid(d)
    ensures NaturalFallback(EnglishDate(d)) == Some(DateTime(d.year, d.month, d.day, 12, 0, 0))
  {
    var t := EnglishDate(d);
    EnglishDateAt(d, "");
    assert t + "" == t;
    MonthNumberOfName(d.month - 1);
    NoonDigits();
  }

  /** A date written out in English, then " at " and a 12-hour clock reading, reads as that minute of that day. */
  lemma FallbackReadsDateAndTime(d: DateTime)
    requires Valid(d)
    ensures NaturalFallback(EnglishDate(d) + " at " + ClockReading(d.hour, d.minute)) == Some(d.(second := 0))
  {
    var date, clock := EnglishDate(d), ClockReading(d.hour, d.minute);
    var dm := DateMatch(MONTH_NAMES[d.month - 1], NatToString(d.day), Pad4(d.year), |date|);
    var tm := TimeMatch(NatToString(Hour12(d.hour)), Some(Pad2(d.minute)), Meridiem(d.hour));
    EnglishDateBeforeClock(d);
    ClockAfterDate(date, d.hour, d.minute);
    ReadsWrittenDateAndTime(d, |date|);
    FallbackOfParts(date + " at " + clock, dm, tm);
  }

  lemma EnglishDateBeforeClock(d: DateTime)
    requires Valid(d)
    ensures DateAt(EnglishDate(d) + " at " + ClockReading(d.hour, d.minute), 0) ==
      Some(DateMatch(MONTH_NAMES[d.month - 1], NatToString(d.day), Pad4(d.year), |EnglishDate(d)|))
  {
    var date, clock := EnglishDate(d), ClockReading(d.hour, d.minute);
    EnglishDateAt(d, " at " + clock);
    assert date + (" at " + clock) == date + " at " + clock;
  }

  lemma ClockAfterDate(date: string, hour: nat, minute: nat)
    requires minute < 60
    ensures TimeSearch(date + " at " + ClockReading(hour, minute), |date|, |date| + 1) ==
      Some(TimeMatch(NatToString(Hour12(hour)), Some(Pad2(minute)), Meridiem(hour)))
  {
    ClockReadingAt(date + " at ", hour, minute);
    TimeAfterDate(date, ClockReading(hour, minute));
  }

  /** The fallback reads the leftmost date group at the start, with the time group the search finds after it. */
  lemma FallbackOfParts(s: string, dm: DateMatch, tm: TimeMatch)
    requires DateAt(s, 0) == Some(dm)
    requires TimeSearch(s, dm.end, dm.end + 1) == Some(tm)
    ensures NaturalFallback(s) == ReadNatural(dm, tm.hourDigits, tm.minuteDigits, tm.meridiem)
  {
    assert FirstDate(s, 0) == Some(dm);
  }

  /** After " at ", the lazy search finds the time group right behind it, when it matches there. */
  lemma TimeAfterDate(date: string, clock: string)
    requires TimeAt(date + " at " + clock, |date| + 4).Some?
    ensures TimeSearch(date + " at " + clock, |date|, |date| + 1) == TimeAt(date + " at " + clock, |date| + 4)
  {
    var t := date + " at " + clock;
    var e := |date|;
    assert t[e] == ' ' && t[e + 1] == 'a' && t[e + 2] == 't' && t[e + 3] == ' ';
    assert TimeAt(t, e + 1).None? && TimeAt(t, e + 2).None? && TimeAt(t, e + 3).None?;
    assert TimeSearch(t, e, e + 3) == TimeSearch(t, e, e + 4);
    assert TimeSearch(t, e, e + 2) == TimeSearch(t, e, e + 3);
  }

  /** `%B %d, %Y %I:%M %p` reads the captures of a written date and clock reading back as that minute. */
  lemma ReadsWrittenDateAndTime(d: DateTime, end: nat)
    requires Valid(d)
    ensures ReadNatural(DateMatch(MONTH_NAMES[d.month - 1], NatToString(d.day), Pad4(d.year), end),
                        NatToString(Hour12(d.hour)), Some(Pad2(d.minute)), Meridiem(d.hour)) == Some(d.(second := 0))
  {
    MonthNumberOfName(d.month - 1);
    ClockHoursInverse(d.hour, 0, 'A');
  }
}
