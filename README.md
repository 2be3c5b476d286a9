# Quickevent core, modelled in Dafny

Quickevent turns a spoken or typed request into a Google Calendar event. A
language model answers with a JSON event, which is cleaned up before it is
sent to the calendar service. This project models that clean-up and the
handling of the model's answer:

- `parse_datetime` (`DateParsing`): eleven `strptime` formats are tried in
  order and the first that accepts wins. If none does, a
  "Month Day, Year [at H:MM AM/PM]" fallback is tried, with noon as the
  default time.
- `validate_event_data` (`CalendarUtils`):
  - a missing or false summary becomes "Untitled Event";
  - a missing `start`/`end` gets a default dict one or two hours from now;
  - a present `start`/`end` dict gets a default `timeZone`, and its
    `dateTime` is rewritten in the `+05:30` form: past years move to the
    current year, and unusable values become the default, with a warning;
  - string attendees become `{'email': ...}`.
- `format_event_time_indian` (`CalendarUtils`): every present start/end is
  forced to Asia/Kolkata.
- `query_groq` (`LlmUtils`): the retry loop over the answers of the
  chat-completion endpoint.
- `extract_json_from_text` (`LlmUtils`): the brace stage, then the fenced
  code block stage, then the field-pattern stage.
- `normalize_datetime` (`LlmUtils`).

The modules are:

- `Wrappers`: `Option`.
- `Text`: characters, digits and decimal rendering.
- `Json`: JSON values (floats kept as their literal text) and `json.loads` without `\u` escapes.
- `DateTimes`: naive datetimes, `timedelta` hours, `replace(year=)`,
  `strptime`/`strftime` directives.
- `DateParsing`: `parse_datetime`.
- `PyObjects`: Python dict and list objects, one level deep, to capture
  the aliasing of `dict.copy()`.
- `CalendarUtils` and `LlmUtils`: the two source files.

Each of the two calendar functions appears twice:

- as functions on values (`ValidateEvent`, `FormatEventIndian`), where most
  of the properties are proved;
- as methods on the event object (`ValidateEventData`,
  `FormatEventTimeIndian`). These work on a shallow copy and update the
  `start`/`end` dicts and the `attendees` list they share with the caller in
  place, as the Python code does. Each pass of their loops is specified by
  the per-dict functions (`RepairTimeDict`, `IndianTimeDict`, `PromoteAll`).
  The contents the loops leave in the start and end dicts are stated by
  `TimesRepaired` and `TimesSetToIst`, and the lemmas `TimesRepairedAgrees`
  and `TimesSetToIstAgrees` connect them to the functions on values.
  When `start` and `end` are one and the same dict object, the end pass
  works on what the start pass left: the dict holds the start's repair
  (which a second repair leaves alone), and only the start pass warns.

Every `datetime.now()` of one call is modelled by a `Clock`: the instant
`now` (whose year is the current year) and the two texts a default start and
end are written as. `Steady` says that these texts are `now` plus one and
two hours, written out; `ClockOk` says only that they are written times no
earlier than the current year, which holds even when the clock moves during
the call. The lemmas about validation assume `ClockOk` where they need it.

Some behaviour of the code that a reader might not expect:

- The brace stage of `extract_json_from_text` runs before the fence stage,
  so a reply with a fenced JSON block whose outer braces decode is recovered
  by the brace stage. The fence stage is reached only when the text between
  the outer braces does not decode.
- A `start`/`end` dict with no `dateTime` keeps having none:
  `validate_event_data` only adds `timeZone` to it.
- A fenced block holding `null` makes `extract_json_from_text` return `None`,
  the same as a failure. A brace stage reading `{}` returns an empty dict.

## Model

| member | source | states |
|---|---|---|
| DateTimes.AddHours | calendar_utils.py:216-218 | `now + timedelta(hours=h)` is a valid datetime in the same or a later year, with the same minute and second |
| DateTimes.AddHoursInstant | calendar_utils.py:218 | adding hours moves the time line forward by exactly 3600·h seconds, across day, month and year ends |
| DateTimes.ReplaceYear | calendar_utils.py:252-253 | `replace(year=y)` succeeds exactly when y is in 1..9999 and the date is not 29 February of a non-leap year, and then changes only the year |
| DateTimes.Strptime | calendar_utils.py:182 | `strptime` accepts only valid datetimes |
| DateTimes.ScanStrftime | calendar_utils.py:256 | round trip: `strptime` reads back what `strftime` wrote with the same format, whatever follows |
| DateTimes.ScanLength | calendar_utils.py:180-184 | a text accepted by an offset-free format has exactly the format's width |
| DateParsing.TryFormats | calendar_utils.py:180-184 | the format loop returns only valid datetimes |
| DateParsing.TryFormatsFirstMatch | calendar_utils.py:180-184 | the loop returns d exactly when some format accepts the text as d and no earlier format accepts it; it returns nothing exactly when no format accepts |
| DateParsing.WordEnd | calendar_utils.py:189 | `\w+` from a position ends at the first character that is not a word character: every character before it is one, and the one at it is not, or the text has ended |
| DateParsing.DateAtMeaning | calendar_utils.py:189 | the scanner finds a date at a position exactly when `\w+ \d{1,2}, \d{4}` matches there, and its captures are the slices of the text: a run of word characters ended by a space, 1 or 2 day digits, ", " and 4 year digits |
| DateParsing.FirstDate | calendar_utils.py:189 | a date found by `re.search` ends after where the search starts and has a nonempty word, 1 or 2 day digits and 4 year digits; which date it is (the leftmost match, with the captures of the text) is fixed by `FirstDateLeftmost` and `DateAtMeaning` |
| DateParsing.DatePosLeftmost | calendar_utils.py:189 | the search stops at the first position where the date group matches, and the group matches at no position before it |
| DateParsing.FirstDateLeftmost | calendar_utils.py:189 | `re.search` takes the date at the leftmost position where the date group matches, or nothing when it matches nowhere |
| DateParsing.TimeAtMeaning | calendar_utils.py:189 | the scanner finds a time at a position exactly when `\d{1,2}(?::\d{2})? [AP]M` matches there, with captures equal to the slices of the text (the regular expression's choice among the ways to match is the only one) |
| DateParsing.TimeSearchNearest | calendar_utils.py:189 | the lazy `.+?` finds the time group at the nearest position after the date that it can reach without crossing a newline; it finds nothing only when the time group matches at no such position |
| DateParsing.MonthNumber | calendar_utils.py:193 | `%B` yields month m exactly when the word is the m-th month name, ignoring case; otherwise no month name matches |
| DateParsing.ClockHoursInverse | calendar_utils.py:193 | `%I` with `%p` reads the hour of the day a 12-hour clock shows, and the other way round |
| DateParsing.MonthNumberOfName | calendar_utils.py:193 | `%B` reads the k-th month name as month k+1 |
| DateParsing.ReadNatural | calendar_utils.py:191-193 | `strptime(f"{date_part} {time_part}", '%B %d, %Y %I:%M %p')` succeeds exactly when the time has minutes, the word is a month name, the hour is 1..12, the minutes are below 60, the year is 1..9999 and the day is within the month; the result then has that year, month, day, hour of the day and minute, zero seconds, and is valid |
| DateParsing.NaturalFallback | calendar_utils.py:186-195 | a fallback result is valid, and has the year, month (by name, ignoring case) and day of the leftmost date group, and zero seconds |
| DateParsing.ParseDateTime | calendar_utils.py:158-197 | `parse_datetime` gives None on the empty string and otherwise only valid datetimes |
| DateParsing.ParseDateTimeOrder | calendar_utils.py:163-197 | the result is d exactly when the text is nonempty and either the first accepting format gives d, or no format accepts and the fallback gives d |
| DateParsing.SlashDateSkipsEarlierFormats | calendar_utils.py:166-174 | a `NN/NN/YYYY` text is rejected by all seven formats before `%m/%d/%Y` |
| DateParsing.MonthFirstWins | calendar_utils.py:172-174 | an ambiguous date that `%m/%d/%Y` accepts is read month first |
| DateParsing.DayFirstOnlyAfterMonthFirstFails | calendar_utils.py:174-177 | `%d/%m/%Y` decides only when `%m/%d/%Y` rejects the text |
| DateParsing.IsoNaiveSetsAllFields | calendar_utils.py:168 | `%Y-%m-%dT%H:%M:%S` sets every field, so no `strptime` default shows through |
| DateParsing.IsoNaiveOffsetFree | calendar_utils.py:168 | `%Y-%m-%dT%H:%M:%S` has no `%z` |
| DateParsing.OffsetOnly | calendar_utils.py:167 | a UTC offset alone is consumed by `%z` |
| DateParsing.ParseIsoWithOffset | calendar_utils.py:167 | an ISO text followed by a UTC offset is read back as the same datetime by the first format |
| DateParsing.FallbackDefaultsToNoon | calendar_utils.py:189-193 | when the date group matches and no time follows it, the fallback succeeds exactly when the date is a real date named by a month name, and it then reads 12:00 |
| DateParsing.FallbackReadsDate | calendar_utils.py:186-193 | every valid date written out in English ("March 18, 2025") reads as noon of that day |
| DateParsing.FallbackReadsDateAndTime | calendar_utils.py:186-193 | every valid date written out in English, then " at " and a 12-hour clock reading ("March 18, 2025 at 3:30 PM"), reads as that minute of that day |
| DateParsing.FallbackNeedsMinutes | calendar_utils.py:192-193 | a time without minutes ("3 PM") makes the whole parse fail |
| DateParsing.FallbackReadsMonth | calendar_utils.py:191-193 | the fallback succeeds only when `%B` reads the word of the date it found |
| DateParsing.FallbackNeedsMonthName | calendar_utils.py:193 | the fallback succeeds only when the word before the day is a full month name |
| CalendarUtils.IstOffsetLength | calendar_utils.py:39 | `+05:30` is a well-formed UTC offset in its entirety |
| CalendarUtils.IsoStamp | calendar_utils.py:219 | the `%Y-%m-%dT%H:%M:%S` stamp is 19 characters long |
| CalendarUtils.IsoStampIsStrftime | calendar_utils.py:219 | the stamp is `strftime` with the ISO format |
| CalendarUtils.Render | calendar_utils.py:256 | the written-back form is 25 characters long |
| CalendarUtils.RenderReadsBack | calendar_utils.py:256 | `parse_datetime` reads every written-back time as the same time |
| CalendarUtils.DefaultTime | calendar_utils.py:216-218 | when adding two hours does not overflow, the default start and end are valid times no earlier than the current year |
| CalendarUtils.SteadyClockOk | calendar_utils.py:216-219 | when the clock stands still during a call, its default texts are written times no earlier than the current year, they read back as now plus one and two hours, and those are exactly 3600 and 7200 seconds after now |
| CalendarUtils.WithZone | calendar_utils.py:230-231 | `timeZone` is added as Asia/Kolkata when missing and never overwritten; other entries are kept |
| CalendarUtils.ValidateFix | calendar_utils.py:234-264 | a false `dateTime` is left alone; a rewritten time is valid and not in the past; unusable values get exactly one warning |
| CalendarUtils.WrittenTime | calendar_utils.py:249-264 | the time a decision writes is valid and its text is what the dict receives; a rewrite writes its own time and a default a time no earlier than the current year |
| CalendarUtils.ApplyFix | calendar_utils.py:249-264 | carrying out the decision adds at most `dateTime` and changes nothing else; leaving the value alone changes nothing; a default writes the default text |
| CalendarUtils.ApplyFixReadsBack | calendar_utils.py:256 | a rewritten `dateTime` reads back as the time written |
| CalendarUtils.ValidateFixOfRendered | calendar_utils.py:237-256 | a written-back time not in the past is rewritten as itself |
| CalendarUtils.RepairTimeDict | calendar_utils.py:228-264 | repairing a present dict adds at most `timeZone`, changes nothing but `dateTime` and `timeZone`, and gives at most one warning |
| CalendarUtils.RepairLeavesAbsentTimeAlone | calendar_utils.py:234-237 | a missing or empty `dateTime` is left alone, without a warning |
| CalendarUtils.RepairWritesCurrentTime | calendar_utils.py:237-264 | every present, true `dateTime` ends as the default text or as text that reads back as a time in the current year or later; when the default texts are written times of the current year or later (`ClockOk`), always the latter |
| CalendarUtils.RepairKeepsCurrentTimes | calendar_utils.py:250-256 | a parsed time not in the past keeps its date and time of day, without a warning |
| CalendarUtils.RepairMovesPastYear | calendar_utils.py:251-264 | a past year becomes the current year, keeping month, day and time of day, without a warning; 29 February into a non-leap year gets the default text and the "Error parsing" warning |
| CalendarUtils.RepairReplacesUnparsableText | calendar_utils.py:242-249 | text that does not parse gets the default text and one "Could not parse" warning naming the text |
| CalendarUtils.RepairReplacesNonString | calendar_utils.py:257-264 | a true non-string value gets the default text and one "Error parsing" warning naming its type |
| CalendarUtils.RepairKeepsWrittenTime | calendar_utils.py:230-256 | a dict with a zone whose `dateTime` was written from a time no earlier than the current year needs no repair |
| CalendarUtils.RepairIdempotent | calendar_utils.py:228-264 | a repaired dict needs no further repair and gives no warning |
| CalendarUtils.IndianFix | calendar_utils.py:417-431 | formatting rewrites only valid times and never warns |
| CalendarUtils.IndianTimeDict | calendar_utils.py:412-431 | a formatted dict has `timeZone` Asia/Kolkata and keeps every entry other than `dateTime` and `timeZone` |
| CalendarUtils.IndianKeepsParsedTime | calendar_utils.py:417-431 | the zone is always set to Asia/Kolkata; a parsed `dateTime` keeps its time (its year is not moved); unparsable text or a missing or false value is left alone; a true non-string value gets the default text |
| CalendarUtils.IndianFixOfRendered | calendar_utils.py:422-425 | a written-back time is rewritten as itself when formatting |
| CalendarUtils.IndianIdempotent | calendar_utils.py:412-431 | formatting a dict twice is formatting it once |
| CalendarUtils.IndianKeepsWrittenTime | calendar_utils.py:412-425 | a dict whose `dateTime` was written back from a time is formatted by setting its zone to Asia/Kolkata and nothing else |
| CalendarUtils.IndianAfterRepair | calendar_utils.py:412-431 | after validation, formatting a dict changes only its zone name |
| CalendarUtils.PromoteAllMeaning | calendar_utils.py:266-271 | the attendees keep their length; each string becomes `{'email': s}`; other entries are untouched; no string remains; promoting again changes nothing |
| CalendarUtils.PromoteAttendees | calendar_utils.py:267-271 | the in-place loop leaves the list equal to its promotion |
| CalendarUtils.AssembleMeaning | calendar_utils.py:199-273 | the assembled event keeps every key, adds summary/start/end, holds a true summary, and changes no other value |
| CalendarUtils.ValidateEventMeaning | calendar_utils.py:199-273 | validation: summary kept when true else "Untitled Event"; start and end as their own repair makes them; attendees promoted; other keys kept; warnings from start then end, at most 2 |
| CalendarUtils.MissingTimeDefaulted | calendar_utils.py:214-227 | a missing time field becomes the dict holding the default text and Asia/Kolkata, without a warning |
| CalendarUtils.RepairKeepsDefault | calendar_utils.py:224-227 | a default time dict needs no repair |
| CalendarUtils.ValidatedTimeStable | calendar_utils.py:213-264 | a validated time field validates to itself, without a warning |
| CalendarUtils.ValidatedEventStable | calendar_utils.py:199-273 | an event whose summary, times and attendees are already valid validates to itself, without warnings |
| CalendarUtils.ValidatedHasFields | calendar_utils.py:206-227 | a validated event has a true summary, a start and an end |
| CalendarUtils.ValidatedFieldStable | calendar_utils.py:213-264 | each time field of a validated event validates to itself, without a warning |
| CalendarUtils.ValidatedAttendeesStable | calendar_utils.py:266-271 | a validated event's attendee list has nothing left to promote |
| CalendarUtils.ValidateEventIdempotent | calendar_utils.py:199-273 | validating a validated event changes nothing and warns about nothing |
| CalendarUtils.ReplaceTimesMeaning | calendar_utils.py:410-411 | replacing start and end adds no key and changes no other value |
| CalendarUtils.FormatEventMeaning | calendar_utils.py:402-442 | formatting adds no key and touches only a present start and end |
| CalendarUtils.FormattedTimeIsIst | calendar_utils.py:410-440 | every formatted time field is a dict whose zone is Asia/Kolkata |
| CalendarUtils.IndianKeepsDefault | calendar_utils.py:432-440 | a default time dict is already formatted |
| CalendarUtils.FormattedTimeStable | calendar_utils.py:410-440 | a formatted time field formats to itself |
| CalendarUtils.FormattedEventStable | calendar_utils.py:402-442 | an event whose present start and end format to themselves is already formatted |
| CalendarUtils.FormatEventIdempotent | calendar_utils.py:402-442 | formatting twice is formatting once |
| CalendarUtils.FormatValidatedTime | calendar_utils.py:410-431 | a validated time dict formats to itself with the zone name set to Asia/Kolkata |
| CalendarUtils.FormatAfterValidate | calendar_utils.py:402-442 | after validation, formatting changes only the zone names of the start and end dicts |
| CalendarUtils.ValidateTimeField | calendar_utils.py:213-264 | one pass on the event object: a missing field gets a fresh default dict with no warning; a dict is repaired in place, through every event sharing it, as `RepairTimeDict` says, with its warnings; any other value stays, with no warning |
| CalendarUtils.WithSummarySlot | calendar_utils.py:206-207 | the summary step adds only `summary`, keeps every other slot, keeps a true summary and otherwise sets "Untitled Event" |
| CalendarUtils.DefaultSummary | calendar_utils.py:206-207 | the top level becomes what the summary step makes of it |
| CalendarUtils.IndianTimeField | calendar_utils.py:411-440 | one pass on the event object: a shared dict is set in place as `IndianTimeDict` says; a non-dict value is replaced by a fresh default dict; a missing field stays missing |
| CalendarUtils.TimesRepairedAgrees | calendar_utils.py:213-264 | the loop on the objects agrees with `ValidateEvent` on values: distinct start and end dicts hold what `ValidatedTime` makes of them and the warnings are the same; a dict the two share holds the start's repair and only the start warns |
| CalendarUtils.TimesSetToIstAgrees | calendar_utils.py:410-431 | the loop on the objects agrees with `FormatEventIndian` on values: distinct start and end dicts hold what `FormattedTime` makes of them; a dict the two share holds what formatting the start makes of it |
| CalendarUtils.ValidateTimeFields | calendar_utils.py:213-264 | the loop adds start and end when missing, as fresh default dicts, and keeps every slot; each dict holds its repair (a shared dict the end repair of the start repair); the warnings are the start's then the end's |
| CalendarUtils.TimesAndAttendees | calendar_utils.py:213-271 | the loop as above, then the attendee list promoted in place |
| CalendarUtils.ValidateCopy | calendar_utils.py:206-271 | the summary step, then the loop and the attendee step on the summarised copy, with the same contents as above |
| CalendarUtils.ValidateEventData | calendar_utils.py:199-273 | the caller's top level is unchanged. The copy is the summarised event plus start and end; missing times are fresh default dicts; the start and end dicts it shares with the caller hold their repairs; the shared attendee list is promoted in place; the warnings are the repairs' in order |
| CalendarUtils.IndianTimeFields | calendar_utils.py:410-440 | the loop keeps the keys; a non-dict start or end is replaced by a fresh default dict; each dict is set to IST in place (a shared dict as the start, then as the end) |
| CalendarUtils.FormatEventTimeIndian | calendar_utils.py:402-442 | the caller's top level is unchanged; the copy keeps the keys; a non-dict start or end is replaced by a fresh default dict; the start and end dicts it shares with the caller are set to IST in place |
| PyObjects.EventRecord.Copy | calendar_utils.py:202 | `dict.copy()` is a new top-level dict holding the very same values and objects |
| Json.BraceTextDecodesToObject | llm_utils.py:60-66 | text that starts with `{` and decodes decodes to a dict |
| Json.ParseNumber | llm_utils.py:41 | a number literal with a fraction or an exponent decodes to a float written as its own text, one with neither to an int, and an int is never followed by a fraction or exponent it left unread |
| Json.FractionAt | llm_utils.py:63 | a literal such as `0.5`, not followed by more of a number, is read as a float wherever it stands in the text |
| Json.FractionDecodes | llm_utils.py:63 | `json.loads` of a fraction alone is that float |
| Text.NatToString | llm_utils.py:47 | the status code is written in decimal without leading zeros, and its digits read back as the code |
| LlmUtils.Settled | llm_utils.py:38-50 | a non-503 attempt: a decoded body exactly on 200 with a body that `response.json()` decodes, and then the decoded value; a status error exactly on a status other than 200; an exception otherwise |
| LlmUtils.SettledDecodesFraction | llm_utils.py:40-41 | a 200 body with a fractional number, `{"x": 0.5}`, is returned as the dict holding the float 0.5 |
| LlmUtils.QueryGroq | llm_utils.py:25-52 | the retry loop returns the reply of the ending `Run` defines, after exactly the number of requests `Run` counts |
| LlmUtils.RunMeaning | llm_utils.py:37-52 | gives up exactly when every attempt answers 503, after max_retries requests; otherwise every request before the last answered 503 and the last decides; never more than max_retries requests |
| LlmUtils.FirstDecisiveAttempt | llm_utils.py:37-50 | the first attempt that does not answer 503 ends the call, after exactly that many requests |
| LlmUtils.AlwaysLoadingGivesUp | llm_utils.py:42-52 | when every attempt answers 503, the reply is "Max retries reached…" after max_retries requests (none when it is not positive) |
| LlmUtils.FailedReplyNamesStatus | llm_utils.py:45-47 | a failed status replies with exactly error and details; the error is the prefix followed by the status in decimal |
| LlmUtils.BraceSpan | llm_utils.py:60-61 | the brace match runs from the first `{` to the last `}` after it; there is none when there is no `{`, or no `}` after the first one |
| LlmUtils.FenceSpan | llm_utils.py:71-72 | the fenced group exists exactly when there are two fences; it starts after the first fence, an optional `json` tag and white space, holds no fence, has no white space at either end, and is followed only by white space up to the next fence |
| LlmUtils.QuotedValueAt | llm_utils.py:85-87 | after a key, the captured value runs from an opening `"` up to the next `"` |
| LlmUtils.FirstMatch | llm_utils.py:90-91 | a match found by `re.search` is an occurrence of the key, at or after where the search starts, followed by a quoted value |
| LlmUtils.FirstMatchLeftmost | llm_utils.py:90-91 | `re.search` takes the leftmost such occurrence: no occurrence before the match, nor any when there is no match, is followed by a quoted value |
| LlmUtils.SearchValue | llm_utils.py:90-97 | a value captured by a field pattern holds no `"`, and the match ends after where the search starts, inside the text |
| LlmUtils.FieldValue | llm_utils.py:90-93 | a captured field value contains no `"`; which value it is (the capture at the leftmost key occurrence followed by a quoted value) is fixed by `FirstMatchLeftmost`, `QuotedValueAt` and `FoundFieldsMeaning` |
| LlmUtils.DateTimeMatches | llm_utils.py:96-97 | the first two non-overlapping `dateTime` values contain no `"`; each is the capture of a search resumed where the previous match ended (`SearchValue`), at the leftmost occurrence (`FirstMatchLeftmost`, `QuotedValueAt`), and `WithDatesMeaning` states how they are used |
| LlmUtils.FoundFieldsMeaning | llm_utils.py:84-93 | a field is recovered exactly when it is one of summary/location/description and its pattern matches; its value is the one captured |
| LlmUtils.WithDatesMeaning | llm_utils.py:99-101 | start and end are added exactly when two dates are found, in the America/Los_Angeles zone; nothing else changes |
| LlmUtils.CollectFields | llm_utils.py:83-93 | the loop over `field_patterns` builds exactly the recovered fields |
| LlmUtils.CollectFieldStage | llm_utils.py:82-101 | the field loop followed by the `dateTime` step builds exactly the field stage |
| LlmUtils.ExtractJsonFromText | llm_utils.py:54-109 | the three stages in order return what `Extracted` defines |
| LlmUtils.BraceSpanFinds | llm_utils.py:60-61 | the brace match is exactly the first `{` and the last `}` whenever that `}` comes after that `{` |
| LlmUtils.BraceStageWins | llm_utils.py:59-66 | when the text from the first `{` to the last `}` decodes, that dict is returned and no later stage is consulted |
| LlmUtils.FieldStageMeaning | llm_utils.py:81-106 | field stage: fields exactly when they match, values captured, start/end exactly with two dates, only the five keys, and empty exactly when nothing is found |
| LlmUtils.FoundFieldsEmpty | llm_utils.py:89-93 | the field loop finds nothing exactly when none of the three patterns matches |
| LlmUtils.FieldStageReturned | llm_utils.py:103-109 | when neither earlier stage decodes, a nonempty field stage is returned as a dict and an empty one as None |
| LlmUtils.ExtractedNoneIff | llm_utils.py:54-109 | None comes back exactly when the brace stage does not decode, and either the fenced text decodes to `null` or nothing at all is found |
| LlmUtils.NormalizeDateTime | llm_utils.py:111-123 | the result names a zone for every nonempty input; it is the input exactly when the input is empty or names a zone; otherwise it is the input plus `-07:00` |
| LlmUtils.NormalizeIdempotent | llm_utils.py:121-123 | normalizing twice is normalizing once |

## Left out

- Logging, `time.sleep`, the HTTP request, its payload and headers are left out. The answer to each request is the parameter `server(i)`.
- `max_tokens` affects only the request payload, so it is not modelled.
- `retry_delay` is taken to be non-negative, as the only caller passes 10, and then it affects only the sleep. A negative value makes `time.sleep` raise `ValueError` inside the `try`, so the first 503 would return `{"error": "An exception occurred: sleep length must be non-negative"}`; that path is not modelled.
- The clock is left out: the readings of `datetime.now()` in one call are the parameter `c`. A `now` so close to 9999-12-31 that adding two hours overflows (Python raises `OverflowError`) is not modelled: `DefaultTime` requires `ReadingOk`.
- Regular expressions are modelled by scanners for the patterns used here only.
  - `\s` and `\w` are ASCII; Python's Unicode white space and word characters are not modelled.
  - `\d` is an ASCII digit.
- `strptime` is modelled with fixed-width fields.
  - `%m`, `%d`, `%H`, `%M` and `%S` take exactly two digits, and `%Y` exactly four.
  - `%z` is `Z`, `+HH:MM` or `+HHMM`. The offset is read and then dropped, because the code writes the clock time back with `+05:30`.
  - Microseconds and leading white space are not accepted.
  - A space in a format matches exactly one space, and a literal letter such as `T` must match exactly; Python's `strptime` lets a format space match a run of white space and compares literal letters ignoring case.
- `json.loads` is modelled without `\u` escapes: text holding one counts as not decoding.
- A float is kept as its literal text, since the code never computes with one. Its truth value is taken from its digits, so a literal that Python rounds to 0.0 although its digits are not all zero (such as `1e-400`) counts as true here.
- The message of a body that does not decode is taken from the response as given (`Attempt.decodeError`). `json.JSONDecodeError` messages are not modelled.
- Dict insertion order is not modelled (dicts are maps).
- The rest of the repository is not part of this model: the calendar service, speech, the web app and token generation.
