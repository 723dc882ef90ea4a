# RinviaBot event parser, modelled in Dafny

RinviaBot turns a free-text chat message into a calendar event. This project
models its parser (`bot.py`) and proves its properties. The parser has two
functions:

- `_extract_datetime` finds a start time in the message. It takes the
  leftmost date token `D{1,2} sep D{1,2} sep D{2,4}`, where `sep` is `/` or
  `.`. A year below 100 becomes year + 2000. It then takes a time, first
  from an `h`-marker pattern (`h 12`, `h12.30`, `H 9:05`) and, if there is
  none, from a bare `HH:MM` / `HH.MM` pattern.
- `parse_simple_event` trims the message and calls the extractor. The title
  is the first non-blank line. The location is the second non-blank line,
  only when that line is a single word with no digits. The notes are the
  whole trimmed text, and the event lasts exactly one hour.

The model is pure: datatypes, functions and lemmas, as the source is.

- `Text` models `str.strip()` and `str.splitlines()`, and the regex classes
  `\s`, `\d`, `\w` and `\b`.
- `Search` models how Python's `re` engine chooses one match. At one
  position, it tries the ways the pattern can match in backtracking order
  (`FirstIn`). Across positions, `re.search` keeps the leftmost (`SearchFrom`).
- `DatePattern` and `TimePatterns` model the three regular expressions. Each
  has an `...Accepts` predicate saying exactly which groups match where. A
  `...At` function tries those ways in the engine's order. The lemmas show
  that the search returns the leftmost match, and among matches at that
  position the one the engine prefers.
- `Calendar` models what `datetime` contributes: the constructor's range
  check (`IsValid`) and `+ timedelta(hours=1)` (`AddOneHour`).
  `AddOneHour` is proved to be the step of exactly 60 minutes under an
  independent reference, the minutes since 0001-01-01 (`MinutesOf`).
- `Extractor` models `_extract_datetime`, and `EventParser` models
  `parse_simple_event`.
- `Scenarios` proves the parser's results on concrete messages: a three-line
  message with a title, a room and an `h` time, a date that does not exist,
  and a date alone.

Python exceptions are modelled as results, not as preconditions. An
impossible date such as `31/02/2026` makes `datetime.datetime` raise
ValueError; the model returns `DateTimeError(ValueError)` and the parser
`ParseError(ValueError)`. Adding the hour to a start in the last hour of
year 9999 raises OverflowError; the model returns `ParseError(OverflowError)`.
The normalised year is always between 100 and 9999, so a ValueError can only
come from the month or the day.

Behaviour the model reproduces from the code as written:

- The two date separators are independent, so `13/2.26` is a date.
- `int('026')` is 26, which is below 100, so a three-digit year `026`
  becomes 2026. A year of `126` is kept as 126.
- The bare time pattern can match inside the date token. `13.02.2026`
  alone gives 13:02, although the comment at bot.py:100 says that a message
  without a time must not become an event (`Scenarios.DateReadAsTime`).
- `h 12:30x` gives 12:00. The minute group fails the final `\b`, and the
  engine then matches without it. `h 1:60` gives 01:00.

## Model

| member | source | states |
|---|---|---|
| `Text.IsLineBreak` | bot.py:130 | the characters at which `str.splitlines()` ends a line: `\n`, `\v`, `\f`, `\r`, the file, group and record separators, NEL and the line and paragraph separators |
| `Text.IsDigit` | bot.py:138 | `\d`, here the ASCII digits `0`..`9` |
| `Text.IsWordChar` | bot.py:76 | `\w`, here ASCII letters, digits and `_` |
| `Text.IsSpace` | bot.py:117 | the characters Python's `str.isspace()` accepts, which are what `strip()` removes and what `\s` matches (bot.py:87, 138) |
| `Text.AtBoundary` | bot.py:76 | `\b`: a word character (ASCII letter, digit or `_`) on exactly one side of the position, the ends of the text counting as non-word |
| `Text.DecimalValue` | bot.py:80-82 | `int()` of a run of digits: its base-10 value, most significant digit first, so leading zeros add nothing |
| `Text.Strip` | bot.py:117 | the result has no whitespace at either end (Python's full `isspace` set), and it is empty exactly when the whole input is whitespace |
| `Text.StripKeepsMiddle` | bot.py:117 | the result of `strip()` is the input's characters between its leading whitespace run and its trailing whitespace, unchanged and in place |
| `Text.StripUnique` | bot.py:117 | whenever the input is whitespace, then a piece with no whitespace at its ends, then whitespace, `strip()` returns exactly that piece (an empty piece when the input is all whitespace) |
| `Text.StripIdempotent` | bot.py:73 | stripping twice is stripping once, so the extractor's own `strip()` of an already-stripped text changes nothing |
| `Text.SplitLines` | bot.py:130 | an empty text has no lines; the first line is the text up to the first line break; no line contains a line break |
| `Text.StripNonBlank` | bot.py:130 | every line kept is non-empty and equal to its own strip; a non-blank first line is kept first, stripped |
| `Text.StripNonBlankOne` | bot.py:130 | one line is kept, stripped, exactly when its strip is not empty |
| `Text.StripNonBlankAppend` | bot.py:130 | the comprehension works line by line: the lines kept from `a + b` are those kept from `a` followed by those kept from `b`; with `StripNonBlankOne` this fixes the whole list |
| `Text.StripNonBlankDropsBlank` | bot.py:130 | blank lines are all dropped |
| `Text.SecondNonBlank` | bot.py:130 | when the lines are a non-blank one, any number of blank ones, a non-blank one and then anything, the first two kept lines are those two, stripped |
| `Text.NonBlankLines` | bot.py:130 | every line kept is non-empty and stripped; for a text that starts with a non-space, the first kept line is the stripped first line |
| `Text.LineEndAt` | bot.py:130 | the first line ends at the first line break |
| `Text.SplitAt` | bot.py:130 | when the first line ends at a line break other than `\r`, the next line starts right after that break |
| `Text.SplitJoinLines` | bot.py:130 | lines with no line break in them, joined by `\n`, split back into the same lines (the last line must be non-empty, since `splitlines` drops a final empty line) |
| `Text.SplitOneLine` | bot.py:130 | a text with no line break is one line |
| `Search.FirstIn` | bot.py:76 | the index returned is accepted and every earlier one is not; none is returned only when nothing is accepted |
| `Search.SearchFrom` | bot.py:76 | `re.search`: the position returned matches and no earlier one does; none is returned only when no position matches |
| `DatePattern.DateAccepts` | bot.py:76 | the date pattern matches from a position with groups of the given lengths: `\b`, one or two digits, `/` or `.`, one or two digits, `/` or `.` (chosen independently of the first), two to four digits, `\b` |
| `DatePattern.IsFirstDate` | bot.py:76 | the date pattern matches at this position in this way, and at no earlier position in any way |
| `DatePattern.DayValue` | bot.py:80 | `int()` of the day group |
| `DatePattern.MonthValue` | bot.py:81 | `int()` of the month group |
| `DatePattern.YearValue` | bot.py:82 | `int()` of the year group |
| `DatePattern.DateAt` | bot.py:76 | what is returned at a position is a match of the date pattern there |
| `DatePattern.DateMatchUnique` | bot.py:76 | at one position the date pattern matches in at most one way, because each group takes a whole run of digits |
| `DatePattern.DateAtComplete` | bot.py:76 | whenever the date pattern matches at a position, the matcher finds that match |
| `DatePattern.SearchDate` | bot.py:76 | a date token found by the search is a match of the pattern |
| `DatePattern.SearchDateSpec` | bot.py:76-78 | the search returns the leftmost date token, and returns none exactly when the text holds no date token |
| `DatePattern.SearchDateFinds` | bot.py:76 | the leftmost date token is the one the search returns |
| `TimePatterns.HourAt` | bot.py:87 | the hour group `([01]?\d\|2[0-3])` matches at a position by the given alternative: `[01]` then a digit, one digit, or `2` then `0`..`3` |
| `TimePatterns.MinuteAt` | bot.py:87 | the minute group `(?:[.:]([0-5]\d))` matches at a position: `.` or `:`, then `0`..`5`, then a digit |
| `TimePatterns.IsHourMarker` | bot.py:87 | the marker letter under `re.IGNORECASE`: `h` or `H` |
| `TimePatterns.HourValue` | bot.py:89 | the hour group `([01]?\d\|2[0-3])` always reads 0..23 |
| `TimePatterns.MinuteValue` | bot.py:90 | the minute group `[0-5]\d` always reads 0..59 |
| `TimePatterns.MarkerAccepts` | bot.py:87 | the marker pattern matches from a position with the given whitespace run, hour alternative and minute choice: `\b`, the letter, the whitespace, the hour, the minute group if chosen, `\b` |
| `TimePatterns.MarkerBefore` | bot.py:87 | the engine's backtracking preference between two matches at one position: more whitespace first, then the earlier hour alternative, then the minute group present |
| `TimePatterns.IsFirstMarker` | bot.py:87 | the marker pattern matches here in this way, at no earlier position, and this way is preferred over every other match here |
| `TimePatterns.MarkerAt` | bot.py:87 | what is returned at a position is a match of the `h`-marker pattern there |
| `TimePatterns.MarkerSpacesDetermined` | bot.py:87 | every match takes the whole run of whitespace after `h`, so backtracking into `\s*` never helps |
| `TimePatterns.MarkerAltDetermined` | bot.py:87 | which hour alternative matched is fixed by the digit after the hour's first digit |
| `TimePatterns.MarkerAtRank` | bot.py:87 | when the marker pattern matches at a position, the matcher returns a match with the same whitespace run, no later in the engine's order |
| `TimePatterns.MarkerSameAlt` | bot.py:87 | two matches at one position with the same whitespace run took the same hour alternative |
| `TimePatterns.MarkerAtBest` | bot.py:87 | when the marker pattern matches at a position, the matcher finds the engine's preferred match there (more whitespace, earlier alternative, minute group present) |
| `TimePatterns.IsFirstMarkerIntro` | bot.py:87 | a leftmost match that takes the minute group, or where the minute group cannot match, is what `re.search` returns |
| `TimePatterns.SearchMarker` | bot.py:87 | what the marker search finds is a match of the pattern |
| `TimePatterns.SearchMarkerSpec` | bot.py:87-88 | the marker search returns the leftmost, preferred match, and none exactly when the pattern matches nowhere |
| `TimePatterns.SearchMarkerFinds` | bot.py:87 | the leftmost preferred marker match is the one the search returns |
| `TimePatterns.MarkerTime` | bot.py:89-90 | a marker time is in 00:00..23:59, and its minute is 0 when the minute group is absent |
| `TimePatterns.BareAccepts` | bot.py:94 | the bare pattern matches from a position with the given hour alternative: `\b`, the hour, `.` or `:`, `0`..`5` and a digit, `\b` |
| `TimePatterns.IsFirstBare` | bot.py:94 | the bare pattern matches here in this way, and at no earlier position |
| `TimePatterns.BareAt` | bot.py:94 | what is returned at a position is a match of the bare time pattern there |
| `TimePatterns.BareMatchUnique` | bot.py:94 | at one position the bare pattern matches in at most one way |
| `TimePatterns.BareAtComplete` | bot.py:94 | whenever the bare pattern matches at a position, the matcher finds that match |
| `TimePatterns.SearchBare` | bot.py:94 | what the bare search finds is a match of the pattern |
| `TimePatterns.SearchBareSpec` | bot.py:94-95 | the bare search returns the leftmost match, and none exactly when the pattern matches nowhere |
| `TimePatterns.SearchBareFinds` | bot.py:94 | the leftmost bare match is the one the search returns |
| `TimePatterns.BareTime` | bot.py:96-97 | a bare time is in 00:00..23:59 |
| `Calendar.IsLeap` | bot.py:91 | the Gregorian leap rule: divisible by 4, and not by 100 unless by 400 |
| `Calendar.DaysInMonth` | bot.py:91 | the length of a month: 31, 30 for April, June, September and November, and 28 or 29 for February |
| `Calendar.IsValid` | bot.py:91 | the range checks of `datetime.datetime(...)`: year 1..9999, month 1..12, day within the month (Gregorian leap years), hour 0..23, minute 0..59 |
| `Calendar.AddOneHour` | bot.py:127 | `start + timedelta(hours=1)` is a valid date-time exactly 60 minutes later; it overflows exactly for a start in the last hour of 9999-12-31 |
| `Calendar.MonthRollover` | bot.py:127 | 23:xx on the last day of a month before December moves to 00:xx on the 1st of the next month, a valid date-time 60 minutes later |
| `Calendar.YearRollover` | bot.py:127 | 23:xx on 31 December before year 9999 moves to 00:xx on 1 January of the next year, a valid date-time 60 minutes later |
| `Calendar.AddOneHourExact` | bot.py:127 | the one-hour step gives the only valid date-time exactly 60 minutes later, and when it overflows none exists |
| `Calendar.MinutesInjective` | bot.py:127 | two valid date-times with the same minute count are equal |
| `Calendar.OrdinalOrdered` | bot.py:127 | day numbers follow calendar order |
| `Calendar.DaysBeforeYearStep` | bot.py:127 | the days before year y+1 are the days before year y plus the length of year y (Gregorian leap rule) |
| `Extractor.NormalizeYear` | bot.py:83-84 | a year below 100 has 2000 added and any other is kept |
| `Extractor.TokenDateTime` | bot.py:80-91 | the arguments passed to `datetime.datetime(...)`: the normalised year, the month and day groups, and the hour and minute of the time found |
| `Extractor.NewDateTime` | bot.py:91 | `datetime.datetime(...)` gives the date-time when `IsValid` holds and raises ValueError otherwise |
| `Extractor.ExtractDateTime` | bot.py:61-101 | a start time returned is a valid date-time, and the only error is ValueError |
| `Extractor.NormalizedYearInRange` | bot.py:83-84 | a year group below 100 gets 2000 added and any other is kept; the result is always within 100..9999 |
| `Extractor.ErrorOnlyFromMonthOrDay` | bot.py:91 | the `datetime` constructor raises exactly when the month is outside 1..12 or the day is outside the month |
| `Extractor.NoDateNoResult` | bot.py:76-78 | with no date token anywhere, the result is no date-time |
| `Extractor.MarkerTimeWins` | bot.py:87-91 | with a marker time present, the result is built from the leftmost date token and the leftmost preferred marker match, whatever bare times the text holds |
| `Extractor.BareTimeFallback` | bot.py:93-98 | with no marker time, the result is built from the leftmost date token and the leftmost bare time |
| `Extractor.NoTimeNoResult` | bot.py:100-101 | with neither time pattern matching, the result is no date-time: a time is never defaulted |
| `Extractor.ExtractionSource` | bot.py:76-101 | any result comes from the leftmost date token, with the marker time if one exists and otherwise the bare time |
| `Extractor.ExtractIgnoresSurroundingSpace` | bot.py:73 | extracting from the stripped text gives the same result |
| `EventParser.IsSingleToken` | bot.py:138 | `re.match(r"^[^\s]+$", s)`: one or more non-whitespace characters from the start, then the end of the text or a final `\n` (which `$` allows) |
| `EventParser.IsLocation` | bot.py:138 | the location test: a single token in which `\d` finds no digit |
| `EventParser.EventFrom` | bot.py:122-149 | once the extractor has answered, an event has the stripped text as description, a valid start and end 60 minutes apart, and a non-empty title |
| `EventParser.ParseSimpleEvent` | bot.py:104-149 | an event has a non-empty title and the stripped text as description, and its start and end are valid with the end exactly 60 minutes after the start |
| `EventParser.BlankNotRecognized` | bot.py:117-119 | empty or whitespace-only text is not an event |
| `EventParser.NoDateNotRecognized` | bot.py:122-124 | text with no date token is not an event |
| `EventParser.NoTimeNotRecognized` | bot.py:122-124 | text in which neither time pattern matches is not an event |
| `EventParser.StartIsExtracted` | bot.py:122-124 | an event's start is the extractor's result; the parser fails exactly when the extractor finds nothing, and raises ValueError exactly when the extractor does |
| `EventParser.EndIsOneHourLater` | bot.py:127 | an event's end is the only valid date-time exactly one hour after its start |
| `EventParser.OverflowOnlyInLastHour` | bot.py:127 | the parser raises OverflowError exactly when the start is in the last hour of 9999-12-31 |
| `EventParser.TitleIsFirstLine` | bot.py:130-132 | the title is the first non-blank line, which is the first line of the stripped text, stripped; the fallback title is never used |
| `EventParser.SingleTokenIffNoSpace` | bot.py:138 | for a stripped, non-empty line, `^[^\s]+$` matches exactly when the line holds no whitespace |
| `EventParser.LocationRule` | bot.py:133-139 | the location is the second non-blank line when it holds no whitespace and no digit, and otherwise empty (also when there is only one line) |
| `EventParser.LocationFromLines` | bot.py:130-139 | for a message whose lines are a non-blank one, blank ones, a non-blank one and the rest, the location is that second non-blank line, stripped, when it holds no whitespace and no digit, and otherwise empty |
| `EventParser.ParseIgnoresSurroundingSpace` | bot.py:159 | the handler's own `strip()` before calling the parser changes nothing |
| `Scenarios.KeepStrippedLines` | bot.py:130 | lines that are already stripped and non-blank are all kept, unchanged and in order |
| `Scenarios.SplitThreeLines` | bot.py:130 | three lines joined by `\n` split back into the three |
| `Scenarios.LettersAreLocation` | bot.py:136-139 | a word of letters is accepted as the location |
| `Scenarios.NoDateBefore` | bot.py:76 | a date token starts with a digit, so none starts before the text's first digit |
| `Scenarios.NoMarkerBefore` | bot.py:87 | a marker match starts with `h` or `H`, so none starts before the first of them |
| `Scenarios.AssembleEvent` | bot.py:117-149 | for a text with no whitespace at either end, a start and its successor hour, the event's title is the first kept (non-blank, stripped) line, its location the second kept line when it passes the test, and its notes the whole text |
| `Scenarios.KeptLines` | bot.py:130 | a text whose lines are all non-empty with no whitespace at either end keeps every line, unchanged and in order |
| `Scenarios.ExtractedFromMarker` | bot.py:76-91 | the leftmost date token and the preferred marker time give the start, when they name a valid date-time |
| `Scenarios.ExtractedFromBare` | bot.py:76-98 | with no marker time, the leftmost date token and the leftmost bare time give the start |
| `Scenarios.RejectedFromMarker` | bot.py:87-91 | when the date token and the marker time name no valid date-time, the parser raises ValueError |
| `Scenarios.DateOnlyExtracted` | bot.py:93-98 | in `13.02.2026` the bare pattern reads `13.02` as the time, giving 2026-02-13 13:02 |
| `Scenarios.DateReadAsTime` | bot.py:100-149 | the message `13.02.2026` alone becomes an event from 13:02 to 14:02 on 13 February 2026, titled with the whole text and with no location |
| `Scenarios.MeetingExtracted` | bot.py:76-91 | in `Nobili avv frattasi` / `Carlomagno` / `13/2/26 h 12` the start is 2026-02-13 12:00: the year 26 becomes 2026 and the minute defaults to 0 |
| `Scenarios.MeetingEvent` | bot.py:104-149 | that message becomes an event titled `Nobili avv frattasi` at `Carlomagno`, from 12:00 to 13:00 on 13 February 2026, with the whole message as notes |
| `Scenarios.Feb31Rejected` | bot.py:91 | `31/02/2026 h 10` raises ValueError: the day does not exist in February |

## Left out

- `get_calendar_service` and `create_calendar_event` (bot.py:32-55) are not modelled. They are Google API client and credential-file calls.
- `handle_message` and `main` (bot.py:155-204) are not modelled. They are asynchronous Telegram I/O, reply formatting with `strftime`, and exception logging. Only their `strip()` appears, in `ParseIgnoresSurroundingSpace`.
- The environment and configuration loading (bot.py:21-26) is not modelled. The time zone label is attached only when the event is submitted, never by the parser.
- wa_webhook.py is not part of this model. It is HTTP glue: HMAC signature checks, network posts and JSON walking. bot copia.py, an older copy of bot.py, is not part of this model either.
- `parse_simple_event(None)`, which `text or ""` turns into the empty text, is not modelled: the input is always a string.
- `\d` and `\w` are modelled for ASCII only. Python also counts non-ASCII digits and letters, so a word boundary next to `è`, or a date written in Arabic-Indic digits, would differ. Whitespace (`\s`, `strip()`) and line breaks (`splitlines()`) follow Python's full sets.
- Python's `datetime` object is modelled as a record of five integers, and its exceptions as results. Seconds and microseconds are always zero in the source and are not modelled.
